/** The merge beside plain C3. */
module MroPlain {
  import opened Prelude
  import opened MroCore
  import opened MroMerge
  import opened MroSuccess

  /** C3 as "The Python 2.3 Method Resolution Order" states it: the first head found in no tail. */
  function C3Head(lists: seq<seq<Class>>, from: nat): Option<Class>
    requires AllNonEmpty(lists) && from <= |lists|
    decreases |lists| - from
  {
    if from == |lists| then None
    else if forall i :: 0 <= i < |lists| ==> lists[from][0] !in lists[i][1..] then Some(lists[from][0])
    else C3Head(lists, from + 1)
  }

  lemma {:induction false} C3HeadIsHead(lists: seq<seq<Class>>, from: nat)
    requires AllNonEmpty(lists) && from <= |lists|
    ensures C3Head(lists, from).Some? ==> exists i :: from <= i < |lists| && lists[i][0] == C3Head(lists, from).value
    decreases |lists| - from
  {
    if from < |lists| {
      C3HeadIsHead(lists, from + 1);
    }
  }

  function C3(lists: seq<seq<Class>>): Option<seq<Class>>
    requires AllNonEmpty(lists)
    decreases Total(lists)
  {
    if lists == [] then Some([])
    else match C3Head(lists, 0)
      case None => None
      case Some(c) =>
        C3HeadIsHead(lists, 0);
        StripShrinks(lists, c);
        match C3(Strip(lists, c))
        case None => None
        case Some(rest) => Some([c] + rest)
  }

  ghost predicate NoInterfaces(gi: Class, lists: seq<seq<Class>>) {
    forall s, x :: s in lists && x in s ==> gi !in x.bases
  }

  lemma {:induction false} CandidateIsC3Head(gi: Class, lists: seq<seq<Class>>, from: nat)
    requires AllNonEmpty(lists) && from <= |lists| && NoInterfaces(gi, lists)
    ensures Candidate(gi, lists, from) == C3Head(lists, from)
    decreases |lists| - from
  {
    if from < |lists| {
      assert lists[from] in lists && lists[from][0] in lists[from];
      CandidateIsC3Head(gi, lists, from + 1);
    }
  }

  lemma {:induction false} MergeIsC3(gi: Class, lists: seq<seq<Class>>)
    requires AllNonEmpty(lists) && NoInterfaces(gi, lists)
    ensures Merge(gi, lists) == C3(lists)
    decreases Total(lists)
  {
    if lists != [] {
      CandidateIsC3Head(gi, lists, 0);
      if Candidate(gi, lists, 0).Some? {
        var c := Candidate(gi, lists, 0).value;
        forall s, x | s in Strip(lists, c) && x in s ensures gi !in x.bases {
          StripSource(lists, c, s);
          assert x in [c] + s;
        }
        StripShrinks(lists, c);
        MergeIsC3(gi, Strip(lists, c));
      }
    }
  }

  /** Interfaces dropped from every list, and the lists this empties dropped too. */
  function Erase(gi: Class, lists: seq<seq<Class>>): (r: seq<seq<Class>>)
    ensures AllNonEmpty(r)
    ensures forall t :: t in r ==> exists s :: s in lists && t == Plain(gi, s)
    ensures forall s :: s in lists && Plain(gi, s) != [] ==> Plain(gi, s) in r
  {
    if lists == [] then []
    else
      assert forall s :: s in lists <==> s == lists[0] || s in lists[1..];
      var rest := Erase(gi, lists[1..]);
      if Plain(gi, lists[0]) == [] then rest else [Plain(gi, lists[0])] + rest
  }

  lemma PlainTwice(gi: Class, s: seq<Class>)
    ensures Plain(gi, Plain(gi, s)) == Plain(gi, s)
  {
    if s != [] && !IsInterface(gi, s[0]) {
      assert Plain(gi, s)[1..] == Plain(gi, s[1..]);
    }
  }

  /** The weakening never rejects because of interfaces: it succeeds exactly when
      plain C3 succeeds on the same lists with the interfaces erased. */
  lemma MergeSucceedsIffErasedC3(gi: Class, lists: seq<seq<Class>>)
    requires AllNonEmpty(lists)
    ensures Merge(gi, lists).Some? <==> C3(Erase(gi, lists)).Some?
  {
    var erased := Erase(gi, lists);
    MergeSucceedsIff(gi, lists);
    MergeSucceedsIff(gi, erased);
    MergeIsC3(gi, erased);
    forall order ensures Linearises(gi, order, lists) <==> Linearises(gi, order, erased) {
      forall s ensures Plain(gi, Plain(gi, s)) == Plain(gi, s) { PlainTwice(gi, s); }
    }
  }
}

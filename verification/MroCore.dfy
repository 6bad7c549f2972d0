/** The class precedence list of `gi/types.py`: C3, weakened for interfaces.
    `gi` is GInterface throughout; a class with `gi` among its direct bases is an interface. */
module MroCore {
  import opened Prelude

  /** `id` is the identity of the class object; the base tuple is fixed at creation, so no class is its own ancestor. */
  datatype Class = Class(id: nat, bases: seq<Class>)

  predicate IsInterface(gi: Class, c: Class) { gi in c.bases }

  predicate InSomeTail(lists: seq<seq<Class>>, c: Class) {
    exists i :: 0 <= i < |lists| && lists[i] != [] && c in lists[i][1..]
  }

  predicate Acceptable(gi: Class, lists: seq<seq<Class>>, c: Class) {
    !InSomeTail(lists, c) || IsInterface(gi, c)
  }

  ghost predicate AllNonEmpty(lists: seq<seq<Class>>) {
    forall i :: 0 <= i < |lists| ==> lists[i] != []
  }

  /** The first acceptable head among `lists[from..]`. */
  function Candidate(gi: Class, lists: seq<seq<Class>>, from: nat): (r: Option<Class>)
    requires AllNonEmpty(lists) && from <= |lists|
    ensures r.Some? ==> Acceptable(gi, lists, r.value) && exists i :: from <= i < |lists| && lists[i][0] == r.value
    ensures r.None? ==> forall i :: from <= i < |lists| ==> !Acceptable(gi, lists, lists[i][0])
    decreases |lists| - from
  {
    if from == |lists| then None
    else if Acceptable(gi, lists, lists[from][0]) then Some(lists[from][0])
    else Candidate(gi, lists, from + 1)
  }

  /** The candidate is the first acceptable head: no earlier one is acceptable. */
  lemma {:induction false} CandidateIsFirst(gi: Class, lists: seq<seq<Class>>, from: nat) returns (i: nat)
    requires AllNonEmpty(lists) && from <= |lists| && Candidate(gi, lists, from).Some?
    ensures from <= i < |lists| && lists[i][0] == Candidate(gi, lists, from).value && Acceptable(gi, lists, lists[i][0])
    ensures forall j :: from <= j < i ==> !Acceptable(gi, lists, lists[j][0])
    decreases |lists| - from
  {
    hide Acceptable;
    if Acceptable(gi, lists, lists[from][0]) {
      i := from;
    } else {
      i := CandidateIsFirst(gi, lists, from + 1);
    }
  }

  /** One list after `c` is deleted from its head: nothing is left of a list this empties. */
  function StripOne(s: seq<Class>, c: Class): seq<seq<Class>>
    requires s != []
  {
    if s[0] != c then [s] else if |s| == 1 then [] else [s[1..]]
  }

  /** Removes `c` from every list it heads, and drops the lists this empties. */
  function Strip(lists: seq<seq<Class>>, c: Class): (r: seq<seq<Class>>)
    requires AllNonEmpty(lists)
    ensures AllNonEmpty(r)
  {
    if lists == [] then [] else StripOne(lists[0], c) + Strip(lists[1..], c)
  }

  /** Taking a head makes the lists shorter, so the merge terminates. */
  lemma {:induction false} StripShrinks(lists: seq<seq<Class>>, c: Class)
    requires AllNonEmpty(lists)
    ensures Total(Strip(lists, c)) <= Total(lists)
    ensures (exists i :: 0 <= i < |lists| && lists[i][0] == c) ==> Total(Strip(lists, c)) < Total(lists)
  {
    if lists != [] {
      StripShrinks(lists[1..], c);
      var first, rest := StripOne(lists[0], c), Strip(lists[1..], c);
      assert first == [] ==> first + rest == rest;
      assert first != [] ==> (first + rest)[1..] == rest;
      if i :| 0 <= i < |lists| && lists[i][0] == c && lists[0][0] != c {
        assert lists[1..][i - 1][0] == c;
      }
    }
  }

  /** Where the lists left after stripping `c` come from. */
  lemma {:induction false} StripSource(lists: seq<seq<Class>>, c: Class, t: seq<Class>)
    requires AllNonEmpty(lists) && t in Strip(lists, c)
    ensures (t in lists && t[0] != c) || [c] + t in lists
  {
    if t in Strip(lists[1..], c) {
      StripSource(lists[1..], c, t);
    } else if lists[0][0] == c {
      assert [c] + t == lists[0];
    }
  }

  /** What becomes of a list when `c` is stripped. */
  lemma {:induction false} StripTarget(lists: seq<seq<Class>>, c: Class, s: seq<Class>)
    requires AllNonEmpty(lists) && s in lists
    ensures s[0] != c ==> s in Strip(lists, c)
    ensures s[0] == c && |s| > 1 ==> s[1..] in Strip(lists, c)
  {
    if s != lists[0] {
      StripTarget(lists[1..], c, s);
    }
  }

  function Total(lists: seq<seq<Class>>): nat {
    if lists == [] then 0 else |lists[0]| + Total(lists[1..])
  }

  function Merge(gi: Class, lists: seq<seq<Class>>): (r: Option<seq<Class>>)
    requires AllNonEmpty(lists)
    ensures r.Some? && lists != [] ==> r.value != []
    decreases Total(lists)
  {
    if lists == [] then Some([])
    else match Candidate(gi, lists, 0)
      case None => None
      case Some(c) =>
        StripShrinks(lists, c);
        match Merge(gi, Strip(lists, c))
        case None => None
        case Some(rest) => Some([c] + rest)
  }

  lemma MergeNil(gi: Class)
    ensures Merge(gi, []) == Some([])
  {
  }

  /** One round of the merge. */
  lemma MergeStep(gi: Class, lists: seq<seq<Class>>)
    requires AllNonEmpty(lists) && lists != []
    ensures Candidate(gi, lists, 0).None? ==> Merge(gi, lists).None?
    ensures Candidate(gi, lists, 0).Some? ==>
              var c := Candidate(gi, lists, 0).value;
              var rest := Merge(gi, Strip(lists, c));
              && Total(Strip(lists, c)) < Total(lists)
              && Merge(gi, lists) == if rest.None? then None else Some([c] + rest.value)
  {
    if Candidate(gi, lists, 0).Some? {
      StripShrinks(lists, Candidate(gi, lists, 0).value);
    }
  }

  /** The lists merged for `c`: itself, the linearisation of each base, the local base order. */
  function MergeInput(c: Class, linear: seq<seq<Class>>): seq<seq<Class>> {
    [[c]] + if c.bases == [] then [] else linear + [c.bases]
  }

  function Mro(gi: Class, c: Class): (r: Option<seq<Class>>)
    ensures r.Some? ==> r.value != []
    decreases c, 1
  {
    match MroAll(gi, c.bases)
    case None => None
    case Some(linear) => Merge(gi, MergeInput(c, linear))
  }

  function MroAll(gi: Class, bases: seq<Class>): (r: Option<seq<seq<Class>>>)
    ensures r.Some? ==> |r.value| == |bases| && AllNonEmpty(r.value)
    decreases bases, 0
  {
    if bases == [] then Some([])
    else
      match (Mro(gi, bases[0]), MroAll(gi, bases[1..]))
      case (Some(first), Some(rest)) => Some([first] + rest)
      case _ => None
  }

  lemma {:induction false} MroAllAt(gi: Class, bases: seq<Class>, i: nat)
    requires i < |bases| && MroAll(gi, bases).Some?
    ensures Mro(gi, bases[i]) == Some(MroAll(gi, bases).value[i])
  {
    hide Merge, Strip, Candidate;
    var rest := MroAll(gi, bases[1..]).value;
    assert MroAll(gi, bases).value == [Mro(gi, bases[0]).value] + rest;
    if i > 0 {
      MroAllAt(gi, bases[1..], i - 1);
      assert bases[1..][i - 1] == bases[i];
    }
  }

  lemma {:induction false} MroAllSome(gi: Class, bases: seq<Class>)
    requires forall i :: 0 <= i < |bases| ==> Mro(gi, bases[i]).Some?
    ensures MroAll(gi, bases).Some?
  {
    if bases != [] {
      MroAllSome(gi, bases[1..]);
    }
  }
}

/** Merging positional and keyword arguments: `_py_args_combine_and_check_length` in `gi/pygi-invoke.c`. */
module Kwargs {
  import opened Prelude

  /** Positional arguments fill a prefix of the names; every other position has a name that is a keyword key;
      no key is the name of a filled position or of no position at all. */
  ghost predicate Accepts<V>(names: seq<Option<string>>, args: seq<V>, kwargs: map<string, V>) {
    && |args| <= |names|
    && (forall i :: |args| <= i < |names| ==> names[i].Some? && names[i].value in kwargs)
    && (forall i :: 0 <= i < |args| ==> names[i].None? || names[i].value !in kwargs)
    && (forall k :: k in kwargs ==> Some(k) in names)
  }

  ghost function Combined<V>(names: seq<Option<string>>, args: seq<V>, kwargs: map<string, V>): seq<V>
    requires Accepts(names, args, kwargs)
  {
    seq(|names|, i requires 0 <= i < |names| => if i < |args| then args[i] else kwargs[names[i].value])
  }

  /** `_check_for_unexpected_kwargs` */
  method AllExpected<V>(names: seq<Option<string>>, kwargs: map<string, V>) returns (ok: bool)
    ensures ok <==> forall k :: k in kwargs ==> Some(k) in names
  {
    var todo := kwargs.Keys;
    while todo != {}
      invariant forall k :: k in kwargs && k !in todo ==> Some(k) in names
      invariant todo <= kwargs.Keys
      decreases |todo|
    {
      var key :| key in todo;
      if Some(key) !in names {
        return false;
      }
      todo := todo - {key};
    }
    return true;
  }

  /** The TypeErrors the source raises, with the position at fault. */
  datatype Merge<V> = Merged(args: seq<V>) | TooMany | Unexpected | Missing(at: nat) | Multiple(at: nat)

  /** Position `i` is filled exactly once. */
  ghost predicate FilledOnce<V>(names: seq<Option<string>>, args: seq<V>, kwargs: map<string, V>, i: nat)
    requires i < |names|
  {
    (i < |args|) != (names[i].Some? && names[i].value in kwargs)
  }

  method Combine<V>(names: seq<Option<string>>, args: seq<V>, kwargs: map<string, V>) returns (r: Merge<V>)
    ensures r.Merged? <==> Accepts(names, args, kwargs)
    ensures r.Merged? ==> r.args == Combined(names, args, kwargs)
    ensures r.TooMany? <==> |args| > |names|
    ensures r.Unexpected? <==> |args| <= |names| && exists k :: k in kwargs && Some(k) !in names
    ensures r.Missing? ==> |args| <= r.at < |names| && !FilledOnce(names, args, kwargs, r.at)
                           && forall i :: 0 <= i < r.at ==> FilledOnce(names, args, kwargs, i)
    ensures r.Multiple? ==> r.at < |args| <= |names| && !FilledOnce(names, args, kwargs, r.at)
                            && forall i :: 0 <= i < r.at ==> FilledOnce(names, args, kwargs, i)
  {
    if |kwargs| == 0 && |args| == |names| {
      assert kwargs == map[];
      return Merged(args);
    }
    if |names| < |args| {
      return TooMany;
    }
    if |kwargs| > 0 {
      var expected := AllExpected(names, kwargs);
      if !expected {
        return Unexpected;
      }
    } else {
      assert kwargs == map[];
    }
    var combined: seq<V> := [];
    for i := 0 to |names|
      invariant |combined| == i
      invariant forall j :: 0 <= j < i ==> FilledOnce(names, args, kwargs, j)
                                           && combined[j] == if j < |args| then args[j] else kwargs[names[j].value]
    {
      var found := |kwargs| > 0 && names[i].Some? && names[i].value in kwargs;
      if found && i >= |args| {
        combined := combined + [kwargs[names[i].value]];
      } else if !found && i >= |args| {
        return Missing(i);
      } else if found {
        return Multiple(i);
      } else {
        combined := combined + [args[i]];
      }
    }
    assert Accepts(names, args, kwargs) by {
      forall i | 0 <= i < |names|
        ensures if i < |args| then names[i].None? || names[i].value !in kwargs
                else names[i].Some? && names[i].value in kwargs
      {
        assert FilledOnce(names, args, kwargs, i);
      }
    }
    return Merged(combined);
  }

  ghost predicate DistinctNames(names: seq<Option<string>>) {
    forall i, j :: 0 <= i < j < |names| && names[i].Some? ==> names[i] != names[j]
  }

  /** With distinct names the keys must be exactly the names left over by the positional arguments. */
  lemma AcceptsIffKeysAreTheRest<V>(names: seq<Option<string>>, args: seq<V>, kwargs: map<string, V>)
    requires DistinctNames(names)
    ensures Accepts(names, args, kwargs) <==>
            && |args| <= |names|
            && (forall i :: |args| <= i < |names| ==> names[i].Some?)
            && kwargs.Keys == (set i | |args| <= i < |names| && names[i].Some? :: names[i].value)
  {
    if |args| <= |names| {
      var rest := set i | |args| <= i < |names| && names[i].Some? :: names[i].value;
      if Accepts(names, args, kwargs) {
        forall k | k in kwargs ensures k in rest {
          var i :| 0 <= i < |names| && names[i] == Some(k);
        }
      }
      if kwargs.Keys == rest && forall i :: |args| <= i < |names| ==> names[i].Some? {
        forall i | |args| <= i < |names| ensures names[i].value in kwargs {
          assert names[i].value in rest;
        }
        forall k | k in kwargs ensures Some(k) in names {
          var i :| |args| <= i < |names| && names[i].Some? && names[i].value == k;
          assert names[i] == Some(k);
        }
      }
    }
  }
}

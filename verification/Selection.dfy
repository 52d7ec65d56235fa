/** Picking the elements of a sequence that satisfy a predicate, in order. */
module Selection {
  function Select<T>(s: seq<T>, p: T -> bool): seq<T> {
    if s == [] then []
    else Select(s[..|s| - 1], p) + if p(s[|s| - 1]) then [s[|s| - 1]] else []
  }

  lemma SelectSnoc<T>(s: seq<T>, p: T -> bool, i: nat)
    requires i < |s|
    ensures Select(s[..i + 1], p) == Select(s[..i], p) + if p(s[i]) then [s[i]] else []
  {
    assert s[..i + 1][..i] == s[..i];
  }

  lemma {:induction false} SelectAppend<T>(a: seq<T>, b: seq<T>, p: T -> bool)
    ensures Select(a + b, p) == Select(a, p) + Select(b, p)
  {
    if b == [] {
      assert a + b == a;
    } else {
      assert (a + b)[..|a + b| - 1] == a + b[..|b| - 1];
      SelectAppend(a, b[..|b| - 1], p);
    }
  }

  lemma SelectPrefix<T>(s: seq<T>, p: T -> bool, i: nat)
    requires i <= |s|
    ensures Select(s[..i], p) <= Select(s, p)
  {
    hide Select;
    assert s == s[..i] + s[i..];
    SelectAppend(s[..i], s[i..], p);
  }

  lemma {:induction false} SelectCongruent<T>(s: seq<T>, p: T -> bool, q: T -> bool)
    requires forall i :: 0 <= i < |s| ==> p(s[i]) == q(s[i])
    ensures Select(s, p) == Select(s, q)
  {
    if s != [] { SelectCongruent(s[..|s| - 1], p, q); }
  }

  lemma {:induction false} SelectNothing<T>(s: seq<T>, p: T -> bool)
    requires forall i :: 0 <= i < |s| ==> !p(s[i])
    ensures Select(s, p) == []
  {
    if s != [] { SelectNothing(s[..|s| - 1], p); }
  }

  lemma {:induction false} SelectMembers<T>(s: seq<T>, p: T -> bool, x: T)
    ensures x in Select(s, p) <==> x in s && p(x)
  {
    if s != [] {
      SelectMembers(s[..|s| - 1], p, x);
      assert x in s <==> x in s[..|s| - 1] || x == s[|s| - 1];
    }
  }

  lemma SelectedIsMember<T>(s: seq<T>, p: T -> bool, i: nat)
    requires i < |Select(s, p)|
    ensures Select(s, p)[i] in s && p(Select(s, p)[i])
  {
    SelectMembers(s, p, Select(s, p)[i]);
  }

  lemma {:induction false} SelectTwice<T(!new)>(s: seq<T>, p: T -> bool, q: T -> bool)
    requires forall x :: q(x) ==> p(x)
    ensures Select(Select(s, p), q) == Select(s, q)
  {
    if s != [] {
      var x := s[|s| - 1];
      SelectTwice(s[..|s| - 1], p, q);
      SelectAppend(Select(s[..|s| - 1], p), if p(x) then [x] else [], q);
      assert Select([x], q) == Select([], q) + if q(x) then [x] else [];
    }
  }

  lemma {:induction false} SelectFewer<T>(s: seq<T>, p: T -> bool, q: T -> bool)
    requires forall i :: 0 <= i < |s| && p(s[i]) ==> q(s[i])
    ensures |Select(s, p)| <= |Select(s, q)| <= |s|
  {
    if s != [] { SelectFewer(s[..|s| - 1], p, q); }
  }
}

/** The list idioms the admin screens use on their selections:
    `prev.filter((x) => x !== v)` and `[...prev, v]`. */
module Lists {

  /** `s.filter((x) => x !== v)`: every occurrence of `v` dropped, the rest in order. */
  function RemoveAll<T(==)>(s: seq<T>, v: T): (r: seq<T>)
    ensures v !in r
    ensures forall i :: 0 <= i < |r| ==> r[i] in s && r[i] != v
    ensures forall i :: 0 <= i < |s| && s[i] != v ==> s[i] in r
    ensures |r| <= |s|
    ensures multiset(r) == multiset(s)[v := 0]
  {
    if s == [] then []
    else
      assert s == [s[0]] + s[1..];
      if s[0] == v then RemoveAll(s[1..], v)
      else [s[0]] + RemoveAll(s[1..], v)
  }

  /** Filtering a concatenation filters each part, so the kept elements
      stay in their order. */
  lemma {:induction false} RemoveAllAppend<T>(s: seq<T>, t: seq<T>, v: T)
    ensures RemoveAll(s + t, v) == RemoveAll(s, v) + RemoveAll(t, v)
  {
    if s == [] {
      assert s + t == t;
    } else {
      assert (s + t)[1..] == s[1..] + t;
      RemoveAllAppend(s[1..], t, v);
    }
  }

  /** The selection toggle: a present value is removed everywhere it occurs,
      an absent one is appended at the end. */
  function Toggle<T(==)>(s: seq<T>, v: T): (r: seq<T>)
    ensures v in r <==> v !in s
    ensures forall i :: 0 <= i < |r| && r[i] != v ==> r[i] in s
    ensures forall i :: 0 <= i < |s| && s[i] != v ==> s[i] in r
    ensures v !in s ==> r == s + [v]
  {
    if v in s then RemoveAll(s, v) else s + [v]
  }

  lemma {:induction false} RemoveAllAbsent<T>(s: seq<T>, v: T)
    requires v !in s
    ensures RemoveAll(s, v) == s
  {
    if s != [] {
      RemoveAllAbsent(s[1..], v);
    }
  }

  /** Toggling `v` leaves the relative order of every other element as it was. */
  lemma ToggleKeepsOthersInOrder<T>(s: seq<T>, v: T)
    ensures RemoveAll(Toggle(s, v), v) == RemoveAll(s, v)
  {
    if v in s {
      RemoveAllAbsent(RemoveAll(s, v), v);
    } else {
      RemoveAllAppend(s, [v], v);
      assert RemoveAll([v], v) == [];
    }
  }

  /** Toggling the same value twice restores whether it is present; when it was
      absent, the whole list is restored. */
  lemma ToggleTwice<T>(s: seq<T>, v: T)
    ensures v in Toggle(Toggle(s, v), v) <==> v in s
    ensures v !in s ==> Toggle(Toggle(s, v), v) == s
  {
    if v !in s {
      RemoveAllAppend(s, [v], v);
      assert RemoveAll([v], v) == [];
      RemoveAllAbsent(s, v);
    }
  }

  /** No value occurs twice. */
  predicate Distinct<T(==)>(s: seq<T>)
  {
    forall i, j :: 0 <= i < j < |s| ==> s[i] != s[j]
  }

  lemma {:induction false} RemoveAllKeepsDistinct<T>(s: seq<T>, v: T)
    requires Distinct(s)
    ensures Distinct(RemoveAll(s, v))
  {
    if s != [] {
      RemoveAllKeepsDistinct(s[1..], v);
      var rest := RemoveAll(s[1..], v);
      if s[0] != v {
        assert s[0] !in s[1..];
        assert s[0] !in rest;
      }
    }
  }

  /** A toggled selection never holds a value twice. */
  lemma ToggleKeepsDistinct<T>(s: seq<T>, v: T)
    requires Distinct(s)
    ensures Distinct(Toggle(s, v))
  {
    if v in s {
      RemoveAllKeepsDistinct(s, v);
    }
  }
}

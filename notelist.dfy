/**
 * The result collection of db/db.go: a `Note` is an (identifier, title) pair
 * compared by value, and a `NoteList` is an insertion-ordered set of notes kept
 * as a membership map beside an ordered slice.
 */
module NoteLists {

  /** A note as returned by a query: identifier and title, equal when both are. */
  datatype Note = Note(id: string, title: string)

  /** No note occurs twice. */
  predicate NoDup(s: seq<Note>)
  {
    forall i, j :: 0 <= i < j < |s| ==> s[i] != s[j]
  }

  /**
   * What appending `other` to a list holding `xs` produces: `xs`, then every
   * note of `other` that is not already there, each at its first occurrence.
   */
  function AppendNewTo(xs: seq<Note>, other: seq<Note>): seq<Note>
    decreases |other|
  {
    if other == [] then xs
    else
      var r := AppendNewTo(xs, other[..|other| - 1]);
      var n := other[|other| - 1];
      if n in r then r else r + [n]
  }

  /** The distinct notes of `s` in order of first appearance. */
  function Dedup(s: seq<Note>): seq<Note>
  {
    AppendNewTo([], s)
  }

  /** Position of the first occurrence of `x` in `s`. */
  function FirstIndex(s: seq<Note>, x: Note): (k: nat)
    requires x in s
    ensures k < |s| && s[k] == x && x !in s[..k]
  {
    if s[0] == x then 0
    else
      var k := 1 + FirstIndex(s[1..], x);
      assert s[..k] == [s[0]] + s[1..][..k - 1];
      k
  }

  lemma FirstIndexUnique(s: seq<Note>, x: Note, k: nat)
    requires k < |s| && s[k] == x && x !in s[..k]
    ensures FirstIndex(s, x) == k
  {
  }

  /** Appending to a sequence does not move the first occurrence of what it already held. */
  lemma FirstIndexSnoc(s: seq<Note>, y: Note, x: Note)
    requires x in s
    ensures FirstIndex(s + [y], x) == FirstIndex(s, x)
  {
    var k := FirstIndex(s, x);
    assert (s + [y])[..k] == s[..k];
    FirstIndexUnique(s + [y], x, k);
  }

  /**
   * The old contents are an unchanged prefix; what follows is drawn from
   * `other`, holds nothing of `xs`, and the result holds exactly the notes of
   * `xs` and `other`.
   */
  lemma {:induction false} AppendNewShape(xs: seq<Note>, other: seq<Note>)
    ensures var r := AppendNewTo(xs, other);
      |xs| <= |r| <= |xs| + |other| && r[..|xs|] == xs &&
      (forall n :: n in r <==> n in xs || n in other) &&
      (forall i :: |xs| <= i < |r| ==> r[i] !in xs && r[i] in other)
    decreases |other|
  {
    if other != [] {
      var o := other[..|other| - 1];
      var n := other[|other| - 1];
      AppendNewShape(xs, o);
      assert other == o + [n];
      var r := AppendNewTo(xs, o);
      if n !in r {
        assert (r + [n])[..|xs|] == r[..|xs|];
      }
    }
  }

  /** A duplicate-free list stays duplicate-free. */
  lemma {:induction false} AppendNewNoDup(xs: seq<Note>, other: seq<Note>)
    requires NoDup(xs)
    ensures NoDup(AppendNewTo(xs, other))
    decreases |other|
  {
    if other != [] {
      AppendNewNoDup(xs, other[..|other| - 1]);
    }
  }

  /** The appended notes keep the order of their first occurrences in `other`. */
  lemma {:induction false} AppendNewOrder(xs: seq<Note>, other: seq<Note>)
    ensures var r := AppendNewTo(xs, other);
      forall i, j :: |xs| <= i < j < |r| ==>
        r[i] in other && r[j] in other && FirstIndex(other, r[i]) < FirstIndex(other, r[j])
    decreases |other|
  {
    AppendNewShape(xs, other);
    if other != [] {
      var o := other[..|other| - 1];
      var n := other[|other| - 1];
      assert other == o + [n];
      AppendNewOrder(xs, o);
      AppendNewShape(xs, o);
      var r' := AppendNewTo(xs, o);
      var r := AppendNewTo(xs, other);
      forall i, j | |xs| <= i < j < |r|
        ensures FirstIndex(other, r[i]) < FirstIndex(other, r[j])
      {
        FirstIndexSnoc(o, n, r[i]);
        if j < |r'| {
          FirstIndexSnoc(o, n, r[j]);
        } else {
          assert n !in o;
          assert other[..|o|] == o;
          FirstIndexUnique(other, n, |o|);
        }
      }
    }
  }

  /** Appending `b` and then `c` is appending `b + c`. */
  lemma {:induction false} AppendNewConcat(a: seq<Note>, b: seq<Note>, c: seq<Note>)
    ensures AppendNewTo(AppendNewTo(a, b), c) == AppendNewTo(a, b + c)
    decreases |c|
  {
    if c == [] {
      assert b + c == b;
    } else {
      var c' := c[..|c| - 1];
      AppendNewConcat(a, b, c');
      assert (b + c)[..|b + c| - 1] == b + c';
    }
  }

  /** Appending only notes already present changes nothing. */
  lemma {:induction false} AppendNewPresent(xs: seq<Note>, other: seq<Note>)
    requires forall n :: n in other ==> n in xs
    ensures AppendNewTo(xs, other) == xs
    decreases |other|
  {
    if other != [] {
      var o := other[..|other| - 1];
      assert forall n :: n in o ==> n in other;
      AppendNewPresent(xs, o);
    }
  }

  /** Merging the same notes twice is merging them once. */
  lemma AppendNewIdempotent(xs: seq<Note>, other: seq<Note>)
    ensures AppendNewTo(AppendNewTo(xs, other), other) == AppendNewTo(xs, other)
  {
    AppendNewShape(xs, other);
    AppendNewPresent(AppendNewTo(xs, other), other);
  }

  /** Merging a list that repeats notes is the same as merging its distinct notes. */
  lemma {:induction false} AppendNewDedup(xs: seq<Note>, other: seq<Note>)
    ensures AppendNewTo(xs, Dedup(other)) == AppendNewTo(xs, other)
    decreases |other|
  {
    if other != [] {
      var o := other[..|other| - 1];
      var n := other[|other| - 1];
      var d := Dedup(o);
      AppendNewDedup(xs, o);
      AppendNewShape([], o);
      AppendNewShape(xs, o);
      if n !in d {
        assert (d + [n])[..|d|] == d;
      }
    }
  }

  /** A duplicate-free sequence has as many distinct elements as entries. */
  lemma {:induction false} NoDupCard(s: seq<Note>)
    requires NoDup(s)
    ensures |set n | n in s| == |s|
  {
    if s != [] {
      var t := s[..|s| - 1];
      assert forall i, j :: 0 <= i < j < |t| ==> t[i] == s[i] && t[j] == s[j];
      NoDupCard(t);
      assert s == t + [s[|s| - 1]];
      assert s[|s| - 1] !in t;
      assert (set n | n in s) == (set n | n in t) + {s[|s| - 1]};
    }
  }

  /**
   * The ordered set. `members` answers membership (the Go map to `true`);
   * `slice` keeps the order in which notes were first added.
   */
  class NoteList {
    var members: map<Note, bool>
    var slice: seq<Note>

    /** The map and the slice hold the same notes, and the slice no note twice. */
    ghost predicate Valid()
      reads this
    {
      NoDup(slice) &&
      (forall n :: n in members <==> n in slice) &&
      (forall n :: n in members ==> members[n])
    }

    /** `NewNoteList`: an empty list. */
    constructor ()
      ensures Valid() && slice == [] && members == map[]
    {
      members := map[];
      slice := [];
    }

    /** Membership is answered by the map and agrees with the slice. */
    function Contains(n: Note): (b: bool)
      reads this
      requires Valid()
      ensures b <==> n in slice
    {
      n in members
    }

    /** Appends each note of `other` that is not yet present, in order. */
    method AppendNew(other: seq<Note>)
      requires Valid()
      modifies this
      ensures Valid()
      ensures slice == AppendNewTo(old(slice), other)
    {
      var i := 0;
      while i < |other|
        invariant 0 <= i <= |other|
        invariant Valid()
        invariant slice == AppendNewTo(old(slice), other[..i])
      {
        var n := other[i];
        assert other[..i + 1][..i] == other[..i];
        if !Contains(n) {
          slice := slice + [n];
          members := members[n := true];
        }
        i := i + 1;
      }
      assert other[..|other|] == other;
    }

    /** Merges another list: the same as appending its slice note by note. */
    method AppendNewFrom(other: NoteList)
      requires Valid()
      modifies this
      ensures Valid()
      ensures slice == AppendNewTo(old(slice), old(other.slice))
    {
      AppendNew(other.slice);
    }

    /** The notes in insertion order, each once. */
    function GetSlice(): (r: seq<Note>)
      reads this
      requires Valid()
      ensures r == slice && NoDup(r)
      ensures forall n :: n in r <==> Contains(n)
    {
      slice
    }

    /** The `i`-th note added; Go panics on an index out of range. */
    function Get(i: int): (r: Note)
      reads this
      requires Valid() && 0 <= i < |slice|
      ensures r == slice[i] && Contains(r)
      ensures forall j :: 0 <= j < |slice| && j != i ==> slice[j] != r
    {
      slice[i]
    }

    /** The number of notes, which is also the number of distinct members. */
    function Len(): (r: int)
      reads this
      requires Valid()
      ensures r == |slice| && r == |members|
    {
      NoDupCard(slice);
      assert members.Keys == set n | n in slice;
      |slice|
    }
  }
}

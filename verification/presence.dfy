/**
 The presence list the editor page builds from a `userJoined` payload: the payload
 is de-duplicated as `[...new Set(usersInRoom)]` does, then each distinct value
 becomes an entry with its position as id, a display name and avatar initials.
 */
module Presence {
  import opened Values
  import opened Text

  /** No value occurs twice. */
  predicate Distinct<T(==)>(xs: seq<T>) {
    forall i, j | 0 <= i < j < |xs| :: xs[i] != xs[j]
  }

  /** The index of the first occurrence of `x` in `xs`. */
  function FirstIndex<T(==)>(xs: seq<T>, x: T): (k: nat)
    requires x in xs
    ensures k < |xs| && xs[k] == x && x !in xs[..k]
  {
    if xs[0] == x then 0
    else
      var k := 1 + FirstIndex(xs[1..], x);
      assert xs[..k] == [xs[0]] + xs[1..][..k - 1];
      k
  }

  /**
   The elements of `xs` in order of first occurrence, each once: the iteration
   order of a `Set` built by inserting the elements of `xs` one after another.
   */
  function Dedupe<T(==)>(xs: seq<T>): (d: seq<T>)
    ensures Distinct(d)
    ensures |d| <= |xs|
    ensures forall i | 0 <= i < |d| :: d[i] in xs
    ensures forall k | 0 <= k < |xs| :: xs[k] in d
  {
    if |xs| == 0 then []
    else
      var prev := Dedupe(xs[..|xs| - 1]);
      var x := xs[|xs| - 1];
      assert xs == xs[..|xs| - 1] + [x];
      if x in prev then prev else prev + [x]
  }

  /** The first index is the only index of `x` with no earlier `x`. */
  lemma FirstIndexUnique<T>(xs: seq<T>, x: T, k: nat)
    requires k < |xs| && xs[k] == x && x !in xs[..k]
    ensures FirstIndex(xs, x) == k
  {
  }

  /** A value seen earlier in `xs` keeps its first index when `xs` grows. */
  lemma FirstIndexOfPrefix<T>(xs: seq<T>, x: T, y: T)
    requires y in xs
    ensures FirstIndex(xs + [x], y) == FirstIndex(xs, y)
  {
    var k := FirstIndex(xs, y);
    assert (xs + [x])[..k] == xs[..k];
    FirstIndexUnique(xs + [x], y, k);
  }

  /** The values of `d` occur in `xs`, in the order of their first occurrences there. */
  ghost predicate InFirstOccurrenceOrder<T>(xs: seq<T>, d: seq<T>) {
    && (forall i | 0 <= i < |d| :: d[i] in xs)
    && (forall i, j | 0 <= i < j < |d| :: FirstIndex(xs, d[i]) < FirstIndex(xs, d[j]))
  }

  /** Growing `xs` at the end keeps the order of values already in it. */
  lemma OrderSurvivesGrowth<T>(ys: seq<T>, x: T, d: seq<T>)
    requires InFirstOccurrenceOrder(ys, d)
    ensures InFirstOccurrenceOrder(ys + [x], d)
  {
    forall i | 0 <= i < |d|
      ensures d[i] in ys + [x] && FirstIndex(ys + [x], d[i]) == FirstIndex(ys, d[i])
    {
      FirstIndexOfPrefix(ys, x, d[i]);
    }
  }

  /** A value new to `ys` comes after every value already listed. */
  lemma OrderSurvivesNewValue<T>(ys: seq<T>, x: T, d: seq<T>)
    requires InFirstOccurrenceOrder(ys + [x], d)
    requires forall i | 0 <= i < |d| :: d[i] in ys
    requires x !in ys
    ensures InFirstOccurrenceOrder(ys + [x], d + [x])
  {
    var xs := ys + [x];
    assert xs[..|ys|] == ys;
    FirstIndexUnique(xs, x, |ys|);
    var e := d + [x];
    forall i, j | 0 <= i < j < |e|
      ensures FirstIndex(xs, e[i]) < FirstIndex(xs, e[j])
    {
      if j < |d| {
        assert e[i] == d[i] && e[j] == d[j];
      } else {
        assert e[i] == d[i];
      }
    }
  }

  /** De-duplication keeps values in the order of their first occurrence. */
  lemma {:induction false} DedupeKeepsFirstOccurrenceOrder<T>(xs: seq<T>)
    ensures InFirstOccurrenceOrder(xs, Dedupe(xs))
    decreases |xs|
  {
    if |xs| > 0 {
      var ys := xs[..|xs| - 1];
      var x := xs[|xs| - 1];
      assert xs == ys + [x];
      DedupeKeepsFirstOccurrenceOrder(ys);
      var prev := Dedupe(ys);
      OrderSurvivesGrowth(ys, x, prev);
      if x !in prev {
        OrderSurvivesNewValue(ys, x, prev);
      }
    }
  }

  /**
   `[...new Set(xs)]` as the browser computes it: one pass over `xs` that adds
   each value to a set unless the set already holds it.
   */
  method DedupeBySet<T(==)>(xs: seq<T>) returns (d: seq<T>)
    ensures d == Dedupe(xs)
  {
    var seen: set<T> := {};
    d := [];
    var i := 0;
    while i < |xs|
      invariant 0 <= i <= |xs|
      invariant d == Dedupe(xs[..i])
      invariant forall x :: x in seen <==> x in d
    {
      assert xs[..i + 1][..i] == xs[..i];
      if xs[i] !in seen {
        seen := seen + {xs[i]};
        d := d + [xs[i]];
      }
      i := i + 1;
    }
    assert xs[..i] == xs;
  }

  /** One row of the presence list. */
  datatype Member = Member(id: string, name: string, avatar: string)

  const UnknownName := "Unknown"
  const UnknownAvatar := "UN"

  /** The name shown for a presence value: the string itself, else "Unknown". */
  function DisplayName(v: JsValue): (name: string)
    ensures v.Str? ==> name == v.s
    ensures !v.Str? ==> name == UnknownName
  {
    if v.Str? then v.s else UnknownName
  }

  /**
   The avatar initials: the first two characters of a string, upper-cased, or
   "UN" for anything else.
   */
  function Initials(v: JsValue): (avatar: string)
    ensures |avatar| <= 2
    ensures forall k | 0 <= k < |avatar| :: !('a' <= avatar[k] <= 'z')
    ensures v.Str? ==> |avatar| == (if |v.s| < 2 then |v.s| else 2)
    ensures v.Str? ==> forall k | 0 <= k < |avatar| :: avatar[k] == UpperChar(v.s[k])
    ensures !v.Str? ==> avatar == UnknownAvatar
  {
    if v.Str? then ToUpper(v.s[..if |v.s| < 2 then |v.s| else 2]) else UnknownAvatar
  }

  /** The entry at position `i` of the list built from the distinct values `u`. */
  function EntryAt(u: seq<JsValue>, i: nat): Member
    requires i < |u|
  {
    Member(NatToString(i), DisplayName(u[i]), Initials(u[i]))
  }

  /** Entry `i` carries id `i`, and the avatar is never longer than two characters (upper-casing being ASCII-only here). */
  predicate WellFormedRoster(users: seq<Member>) {
    forall i | 0 <= i < |users| :: users[i].id == NatToString(i) && |users[i].avatar| <= 2
  }

  /** The presence list a `userJoined` payload produces. */
  function Roster(payload: JsValue): (users: seq<Member>)
    ensures WellFormedRoster(users)
    ensures !payload.Arr? ==> users == []
    ensures payload.Arr? ==> |users| <= |payload.items|
    ensures payload.Arr? ==> |users| == |Dedupe(payload.items)|
    ensures payload.Arr? ==> forall i | 0 <= i < |users| :: users[i] == EntryAt(Dedupe(payload.items), i)
  {
    var u := Dedupe(ArrayItems(payload));
    seq(|u|, i requires 0 <= i < |u| => EntryAt(u, i))
  }

  /** Every value of an array payload is listed, under its own name. */
  lemma RosterListsEveryValue(payload: JsValue, v: JsValue)
    requires payload.Arr? && v in payload.items
    ensures exists i | 0 <= i < |Roster(payload)| :: Roster(payload)[i].name == DisplayName(v)
  {
    var u := Dedupe(payload.items);
    var i := FirstIndex(u, v);
    assert Roster(payload)[i].name == DisplayName(v);
  }

  /** The ids of a presence list are pairwise different. */
  lemma RosterIdsDistinct(users: seq<Member>)
    requires WellFormedRoster(users)
    ensures forall i, j | 0 <= i < j < |users| :: users[i].id != users[j].id
  {
    forall i, j | 0 <= i < j < |users|
      ensures users[i].id != users[j].id
    {
      NatToStringInjective(i, j);
    }
  }

  /** When every value of the payload is a string, no name is listed twice. */
  lemma RosterNamesDistinct(payload: JsValue)
    requires payload.Arr?
    requires forall k | 0 <= k < |payload.items| :: payload.items[k].Str?
    ensures var users := Roster(payload);
      forall i, j | 0 <= i < j < |users| :: users[i].name != users[j].name
  {
    var u := Dedupe(payload.items);
    var users := Roster(payload);
    forall i, j | 0 <= i < j < |users|
      ensures users[i].name != users[j].name
    {
      assert u[i] in payload.items && u[j] in payload.items;
      assert u[i].Str? && u[j].Str?;
      assert u[i] != u[j];
    }
  }
}

/**
 The dashboard's session list: the created and the joined sessions fetched from
 the sessions API are normalised, tagged and merged; the activity card counts
 them; deleting a session filters it out; and each row shows at most three
 collaborators followed by a "+n" badge.
 */
module Sessions {
  import opened Values
  import opened Text

  /** A session record as the sessions API returns it (`None` is a missing or null field). */
  datatype RawSession = RawSession(
    id: string,
    name: Option<string>,
    language: Option<string>,
    collaborators: Option<seq<string>>,
    isActive: Option<bool>
  )

  /** Which of the two lists a session came from. */
  datatype Kind = Created | Joined

  /** A session as the dashboard holds it. */
  datatype Session = Session(
    id: string,
    name: string,
    language: string,
    collaborators: seq<string>,
    isActive: bool,
    kind: Kind
  )

  /** The body of a list reply, which the page checks with `Array.isArray`. */
  datatype Listing = ArrayOf(items: seq<RawSession>) | NotAnArray

  /** How the two list requests ended. */
  datatype FetchOutcome = NoToken | FetchFailed | Fetched(created: Listing, joined: Listing)

  const UntitledName := "Untitled Session"
  const UnknownLanguage := "Unknown"

  /** One record with its falsy fields defaulted and its kind attached. */
  function Normalise(raw: RawSession, kind: Kind): (s: Session)
    ensures s.id == raw.id && s.kind == kind
    ensures s.name == (if Truthy(raw.name) then raw.name.value else UntitledName)
    ensures s.language == (if Truthy(raw.language) then raw.language.value else UnknownLanguage)
    ensures s.collaborators == (if raw.collaborators.Some? then raw.collaborators.value else [])
    ensures s.isActive <==> raw.isActive == Some(true)
  {
    Session(
      raw.id,
      OrDefault(raw.name, UntitledName),
      OrDefault(raw.language, UnknownLanguage),
      raw.collaborators.GetOr([]),
      raw.isActive.GetOr(false),
      kind)
  }

  /** A normalised session never has an empty name or language. */
  lemma NormalisedFieldsNonEmpty(raw: RawSession, kind: Kind)
    ensures Normalise(raw, kind).name != "" && Normalise(raw, kind).language != ""
  {
  }

  /** Every record of an array reply, normalised with the given kind; nothing otherwise. */
  function NormaliseAll(l: Listing, kind: Kind): (ss: seq<Session>)
    ensures !l.ArrayOf? ==> ss == []
    ensures l.ArrayOf? ==> |ss| == |l.items|
    ensures l.ArrayOf? ==> forall i | 0 <= i < |ss| :: ss[i] == Normalise(l.items[i], kind)
  {
    match l
    case NotAnArray => []
    case ArrayOf(items) => seq(|items|, i requires 0 <= i < |items| => Normalise(items[i], kind))
  }

  /** The number of records a listing contributes. */
  function Size(l: Listing): nat {
    if l.ArrayOf? then |l.items| else 0
  }

  /**
   The list after `fetchSessions`: created sessions first, then joined ones. A
   missing token leaves the list as it was; a failed request empties it.
   */
  function FetchSessions(prev: seq<Session>, o: FetchOutcome): (ss: seq<Session>)
    ensures o.NoToken? ==> ss == prev
    ensures o.FetchFailed? ==> ss == []
    ensures o.Fetched? ==> |ss| == Size(o.created) + Size(o.joined)
    ensures o.Fetched? ==> forall i | 0 <= i < Size(o.created) :: ss[i] == Normalise(o.created.items[i], Created)
    ensures o.Fetched? ==> forall i | 0 <= i < Size(o.joined) ::
      ss[Size(o.created) + i] == Normalise(o.joined.items[i], Joined)
  {
    match o
    case NoToken => prev
    case FetchFailed => []
    case Fetched(created, joined) => NormaliseAll(created, Created) + NormaliseAll(joined, Joined)
  }

  /** `recentSessions.filter(s => s.type === kind).length`. */
  function CountKind(ss: seq<Session>, kind: Kind): nat
    decreases |ss|
  {
    if |ss| == 0 then 0
    else CountKind(ss[..|ss| - 1], kind) + (if ss[|ss| - 1].kind == kind then 1 else 0)
  }

  /** Counting distributes over concatenation. */
  lemma {:induction false} CountKindConcat(a: seq<Session>, b: seq<Session>, kind: Kind)
    ensures CountKind(a + b, kind) == CountKind(a, kind) + CountKind(b, kind)
    decreases |b|
  {
    if |b| == 0 {
      assert a + b == a;
    } else {
      CountKindConcat(a, b[..|b| - 1], kind);
      assert (a + b)[..|a + b| - 1] == a + b[..|b| - 1];
    }
  }

  /** "Sessions Created" plus "Sessions Joined" is "Total Sessions". */
  lemma {:induction false} CountsAddUp(ss: seq<Session>)
    ensures CountKind(ss, Created) + CountKind(ss, Joined) == |ss|
    decreases |ss|
  {
    if |ss| > 0 {
      CountsAddUp(ss[..|ss| - 1]);
    }
  }

  /** A list of one kind counts all its entries under that kind. */
  lemma {:induction false} CountUniform(ss: seq<Session>, kind: Kind)
    requires forall i | 0 <= i < |ss| :: ss[i].kind == kind
    ensures CountKind(ss, kind) == |ss|
    decreases |ss|
  {
    if |ss| > 0 {
      CountUniform(ss[..|ss| - 1], kind);
    }
  }

  /** After a fetch, the counts are the sizes of the two replies. */
  lemma FetchedCounts(prev: seq<Session>, created: Listing, joined: Listing)
    ensures var ss := FetchSessions(prev, Fetched(created, joined));
      && CountKind(ss, Created) == Size(created)
      && CountKind(ss, Joined) == Size(joined)
  {
    var a := NormaliseAll(created, Created);
    var b := NormaliseAll(joined, Joined);
    CountKindConcat(a, b, Created);
    CountKindConcat(a, b, Joined);
    CountUniform(a, Created);
    CountUniform(b, Joined);
    CountsAddUp(a);
    CountsAddUp(b);
  }

  // ----- deleting -----

  /** How the delete request ended. */
  datatype DeleteOutcome = DeleteNoToken | DeleteFailed | Deleted

  /** `prev.filter(s => s.id !== sessionId)`. */
  function RemoveId(ss: seq<Session>, sessionId: string): (r: seq<Session>)
    ensures |r| <= |ss|
    ensures forall i | 0 <= i < |r| :: r[i].id != sessionId && r[i] in ss
    ensures forall i | 0 <= i < |ss| :: ss[i].id != sessionId ==> ss[i] in r
    decreases |ss|
  {
    if |ss| == 0 then []
    else
      var init := RemoveId(ss[..|ss| - 1], sessionId);
      var last := ss[|ss| - 1];
      assert ss == ss[..|ss| - 1] + [last];
      if last.id != sessionId then init + [last] else init
  }

  /** `a` is `b` with some entries left out, the rest in their order. */
  predicate IsSubsequence<T(==)>(a: seq<T>, b: seq<T>)
    decreases |b|
  {
    if |a| == 0 then true
    else if |b| == 0 then false
    else if a[|a| - 1] == b[|b| - 1] then IsSubsequence(a[..|a| - 1], b[..|b| - 1])
    else IsSubsequence(a, b[..|b| - 1])
  }

  /** The kept sessions stay in their original order. */
  lemma {:induction false} RemoveIdKeepsOrder(ss: seq<Session>, sessionId: string)
    ensures IsSubsequence(RemoveId(ss, sessionId), ss)
    decreases |ss|
  {
    if |ss| > 0 {
      var init := ss[..|ss| - 1];
      RemoveIdKeepsOrder(init, sessionId);
      var r := RemoveId(ss, sessionId);
      if ss[|ss| - 1].id != sessionId {
        assert r[..|r| - 1] == RemoveId(init, sessionId);
      }
    }
  }

  /** Every session with another id is kept exactly as often as it occurs; the id's sessions are all gone. */
  lemma {:induction false} RemoveIdCounts(ss: seq<Session>, sessionId: string)
    ensures forall s :: multiset(RemoveId(ss, sessionId))[s] == if s.id == sessionId then 0 else multiset(ss)[s]
    decreases |ss|
  {
    if |ss| > 0 {
      var init, last := ss[..|ss| - 1], ss[|ss| - 1];
      RemoveIdCounts(init, sessionId);
      assert ss == init + [last];
      assert multiset(ss) == multiset(init) + multiset{last};
    }
  }

  /** A list without the id is left exactly as it is. */
  lemma {:induction false} RemoveAbsentId(ss: seq<Session>, sessionId: string)
    requires forall i | 0 <= i < |ss| :: ss[i].id != sessionId
    ensures RemoveId(ss, sessionId) == ss
    decreases |ss|
  {
    if |ss| > 0 {
      RemoveAbsentId(ss[..|ss| - 1], sessionId);
      assert ss == ss[..|ss| - 1] + [ss[|ss| - 1]];
    }
  }

  /** The list after `handleDeleteSession`: filtered only once the delete succeeded. */
  function DeleteSession(ss: seq<Session>, sessionId: string, o: DeleteOutcome): (r: seq<Session>)
    ensures !o.Deleted? ==> r == ss
    ensures o.Deleted? ==> r == RemoveId(ss, sessionId)
    ensures o.Deleted? ==> forall i | 0 <= i < |r| :: r[i].id != sessionId
    ensures o.Deleted? ==> forall s :: multiset(r)[s] == if s.id == sessionId then 0 else multiset(ss)[s]
    ensures o.Deleted? ==> IsSubsequence(r, ss)
  {
    if o.Deleted? then
      RemoveIdKeepsOrder(ss, sessionId);
      RemoveIdCounts(ss, sessionId);
      RemoveId(ss, sessionId)
    else
      ss
  }

  /** Deleting the same id a second time changes nothing. */
  lemma DeleteIdempotent(ss: seq<Session>, sessionId: string, o: DeleteOutcome)
    ensures var once := DeleteSession(ss, sessionId, Deleted);
      DeleteSession(once, sessionId, o) == once
  {
    RemoveAbsentId(RemoveId(ss, sessionId), sessionId);
  }

  // ----- collaborator avatars -----

  const ShownCollaborators := 3

  /** The avatars a row shows and the overflow badge, if any. */
  datatype Overflow = Overflow(shown: seq<string>, badge: Option<string>)

  /** The number of collaborators the badge stands for. */
  function Hidden(o: Overflow, n: nat): nat {
    if o.badge.Some? && n > ShownCollaborators then n - ShownCollaborators else 0
  }

  /** The first three collaborators, then "+(n-3)" when there are more. */
  function CollaboratorOverflow(collaborators: seq<string>): (o: Overflow)
    ensures |o.shown| == if |collaborators| < ShownCollaborators then |collaborators| else ShownCollaborators
    ensures o.shown == collaborators[..|o.shown|]
    ensures o.badge.Some? <==> |collaborators| > ShownCollaborators
    ensures o.badge.Some? ==> o.badge.value == "+" + NatToString(|collaborators| - ShownCollaborators)
    ensures |o.shown| + Hidden(o, |collaborators|) == |collaborators|
  {
    var n := |collaborators|;
    var shown := collaborators[..if n < ShownCollaborators then n else ShownCollaborators];
    if n > ShownCollaborators then Overflow(shown, Some("+" + NatToString(n - ShownCollaborators)))
    else Overflow(shown, None)
  }

  /** The badge text reads back as the number of hidden collaborators. */
  lemma BadgeReadsBack(collaborators: seq<string>)
    requires |collaborators| > ShownCollaborators
    ensures var b := CollaboratorOverflow(collaborators).badge.value;
      && b[0] == '+'
      && (forall k | 1 <= k < |b| :: IsDigit(b[k]))
      && ParseDecimal(b[1..]) == |collaborators| - ShownCollaborators
  {
    var digits := NatToString(|collaborators| - ShownCollaborators);
    assert CollaboratorOverflow(collaborators).badge.value[1..] == digits;
    ParseNatToString(|collaborators| - ShownCollaborators);
  }
}

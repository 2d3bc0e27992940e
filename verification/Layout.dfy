/** Names inside the quarantine store, and the walk that finds a free session name. */
module Layout {
  import opened Wrappers
  import opened Paths
  import opened Digits
  import opened Ids
  import opened Model

  const ITEMS_DIR := "items"
  const SEQUENCE_WIDTH := 4
  const FIRST_SEQUENCE := 1
  const U32_MAX := 0xFFFF_FFFF
  const MAX_SESSION_ATTEMPTS := 16
  const SUFFIX_SPACE := 36 * 36 * 36 * 36

  function Basename(p: Path): string {
    if p == [] then "item" else p[|p| - 1]
  }

  function SequenceLabel(sequence: nat): (s: string)
    ensures s != "" && AllDigits(s) && Value10(s) == sequence
  {
    ValueOfPadded(sequence, SEQUENCE_WIDTH);
    Padded(sequence, SEQUENCE_WIDTH)
  }

  function ItemsDir(sessionDir: Path): Path {
    sessionDir + [ITEMS_DIR]
  }

  function ItemDir(sessionDir: Path, sequence: nat): Path {
    sessionDir + [ITEMS_DIR, SequenceLabel(sequence)]
  }

  function StoredPath(sessionDir: Path, sequence: nat, basename: string): Path {
    sessionDir + [ITEMS_DIR, SequenceLabel(sequence), basename]
  }

  function SequenceOf(position: nat): Result<nat, BrozaError> {
    if position > U32_MAX || position + FIRST_SEQUENCE > U32_MAX then Err(Other)
    else Ok(position + FIRST_SEQUENCE)
  }

  function EntryIdText(session: string, sequence: nat): string {
    session + "/" + SequenceLabel(sequence)
  }

  function EntryId(session: string, sequence: nat, calendar: Calendar): Result<string, BrozaError> {
    var text := EntryIdText(session, sequence);
    if IsEntryId(text, calendar) then Ok(text) else Err(Other)
  }

  /** `sequence_in`: the number an entry id carries. */
  function SequenceIn(id: string): Option<nat> {
    ParseU32(SequencePart(id))
  }

  /**
   * For every session and every `u32` the entry id parses, its parts give back
   * the session and, read as a number, the sequence.
   */
  lemma EntryIdRoundTrip(session: string, sequence: nat, calendar: Calendar)
    requires IsSessionId(session, calendar) && sequence <= U32_MAX
    ensures EntryId(session, sequence, calendar) == Ok(EntryIdText(session, sequence))
    ensures SessionPart(EntryIdText(session, sequence)) == session
    ensures SequenceIn(EntryIdText(session, sequence)) == Some(sequence)
  {
    SessionIdShape(session, calendar);
    SplitOnceAtFirst(session, SequenceLabel(sequence), '/');
  }

  /** Two sequence numbers of one session never share a stored path or an item directory. */
  lemma StoredPathsApart(dir: Path, m: nat, n: nat, a: string, b: string)
    requires m != n
    ensures Apart(StoredPath(dir, m, a), StoredPath(dir, n, b))
    ensures !(ItemDir(dir, m) <= StoredPath(dir, n, b))
  {
    var at := |dir| + 1;
    assert StoredPath(dir, m, a)[at] == ItemDir(dir, m)[at] == SequenceLabel(m);
    assert StoredPath(dir, n, b)[at] == SequenceLabel(n);
  }

  /** Below ten thousand, entry ids sort as their sequence numbers do. */
  lemma EntryIdsSortBelowTenThousand(session: string, m: nat, n: nat)
    requires m <= 9999 && n <= 9999
    ensures Before(EntryIdText(session, m), EntryIdText(session, n)) <==> m < n
  {
    assert Pow10(4) == 10000 by {
      assert Pow10(0) == 1 && Pow10(1) == 10 && Pow10(2) == 100 && Pow10(3) == 1000;
    }
    DecimalLength(m, 4);
    DecimalLength(n, 4);
    BeforeCommonPrefix(session + "/", SequenceLabel(m), SequenceLabel(n));
    BeforeIsNumeric(SequenceLabel(m), SequenceLabel(n));
  }

  lemma LastFourDigits()
    ensures SequenceLabel(9999) == "9999"
  {
    assert Decimal(9) == "9" && Decimal(99) == "99";
    assert Decimal(999) == "999";
  }

  lemma FirstFiveDigits()
    ensures SequenceLabel(10000) == "10000"
  {
    assert Decimal(1) == "1" && Decimal(10) == "10";
    assert Decimal(100) == "100" && Decimal(1000) == "1000";
  }

  /** The padding runs out at ten thousand: that entry's id sorts before its predecessor's. */
  lemma TenThousandthEntrySortsBack(session: string)
    ensures Before(EntryIdText(session, 10000), EntryIdText(session, 9999))
    ensures !Before(EntryIdText(session, 9999), EntryIdText(session, 10000))
  {
    LastFourDigits();
    FirstFiveDigits();
    hide Decimal;
    BeforeCommonPrefix(session + "/", "9999", "10000");
    BeforeCommonPrefix(session + "/", "10000", "9999");
  }

  ghost predicate StrictlyIncreasing(ids: seq<string>) {
    forall i, j :: 0 <= i < j < |ids| ==> Before(ids[i], ids[j])
  }

  /** The ids of a session with `count` entries, in entry order. */
  function EntryIds(session: string, count: nat): (ids: seq<string>)
    ensures |ids| == count
    ensures forall i :: 0 <= i < count ==> ids[i] == EntryIdText(session, i + FIRST_SEQUENCE)
  {
    seq(count, i requires 0 <= i < count => EntryIdText(session, i + FIRST_SEQUENCE))
  }

  /** Exactly the sessions of at most 9999 entries list their ids in increasing order. */
  lemma EntryIdsIncreaseExactlyBelowTenThousand(session: string, count: nat)
    ensures StrictlyIncreasing(EntryIds(session, count)) <==> count <= 9999
  {
    var ids := EntryIds(session, count);
    if count <= 9999 {
      forall i, j | 0 <= i < j < count ensures Before(ids[i], ids[j]) {
        EntryIdsSortBelowTenThousand(session, i + 1, j + 1);
      }
    } else {
      TenThousandthEntrySortsBack(session);
      assert !Before(ids[9998], ids[9999]);
    }
  }

  // ------------------------------------------------------------ session names

  /** `suffix_text`: the digits are written right to left into a row of zeros. */
  method SuffixText(value: nat) returns (text: string)
    ensures text == Text36(value, SESSION_SUFFIX_LEN)
  {
    var slots := new char[SESSION_SUFFIX_LEN](_ => '0');
    var left := value;
    var at := SESSION_SUFFIX_LEN;
    assert Text36(value, SESSION_SUFFIX_LEN) == Text36(left, at) + slots[at..];
    while at > 0
      invariant 0 <= at <= SESSION_SUFFIX_LEN == slots.Length
      invariant Text36(value, SESSION_SUFFIX_LEN) == Text36(left, at) + slots[at..]
    {
      at := at - 1;
      slots[at] := DigitChar(left % 36);
      left := left / 36;
    }
    text := slots[..];
  }

  function NextSessionId(id: string, calendar: Calendar): Result<string, BrozaError> {
    var text := NameAt(TimestampPart(id), Turn(Place(id), 1));
    if IsSessionId(text, calendar) then Ok(text) else Err(Other)
  }

  /** Where in the cycle a suffix sits. */
  function Place(id: string): nat {
    if AllSuffixChars(SuffixPart(id)) then Value36(SuffixPart(id)) else 0
  }

  /** `place` moved `k` steps round the cycle. */
  function Turn(place: nat, k: nat): (t: nat)
    ensures t < SUFFIX_SPACE
  {
    (place + k) % SUFFIX_SPACE
  }

  lemma TurnSteps(place: nat, k: nat)
    ensures Turn(Turn(place, k), 1) == Turn(place, k + 1)
    ensures place < SUFFIX_SPACE ==> Turn(place, 0) == place
  {
  }

  lemma TurnDistinct(place: nat, i: nat, j: nat)
    requires i < j < SUFFIX_SPACE
    ensures Turn(place, i) != Turn(place, j)
  {
  }

  lemma TurnReaches(place: nat, want: nat) returns (k: nat)
    requires place < SUFFIX_SPACE && want < SUFFIX_SPACE
    ensures k < SUFFIX_SPACE && Turn(place, k) == want
  {
    k := if place <= want then want - place else want + SUFFIX_SPACE - place;
  }

  function NameAt(stamp: string, place: nat): string {
    SessionIdOf(stamp, Text36(place, SESSION_SUFFIX_LEN))
  }

  /** The `k`-th name of the walk that starts at `id`. */
  function Walk(id: string, k: nat): string {
    NameAt(TimestampPart(id), Turn(Place(id), k))
  }

  lemma SuffixSpaceIsPow()
    ensures Pow36(SESSION_SUFFIX_LEN) == SUFFIX_SPACE
  {
    assert Pow36(0) == 1 && Pow36(1) == 36 && Pow36(2) == 36 * 36 && Pow36(3) == 36 * 36 * 36;
  }

  /** Reading back undoes writing, for every value the four characters can hold, and writing undoes reading. */
  lemma SuffixRoundTrip(value: nat, suffix: string)
    requires value < SUFFIX_SPACE && IsSuffix(suffix)
    ensures IsSuffix(Text36(value, SESSION_SUFFIX_LEN))
    ensures Value36(Text36(value, SESSION_SUFFIX_LEN)) == value
    ensures Value36(suffix) < SUFFIX_SPACE && Text36(Value36(suffix), SESSION_SUFFIX_LEN) == suffix
  {
    SuffixSpaceIsPow();
    ValueOfText36(value, SESSION_SUFFIX_LEN);
    TextOfValue36(suffix);
  }

  /** A place of the cycle makes a valid name of the same instant, and the name says which place it is. */
  lemma NameAtParts(stamp: string, place: nat, calendar: Calendar)
    requires IsTimestamp(stamp, calendar) && place < SUFFIX_SPACE
    ensures IsSessionId(NameAt(stamp, place), calendar)
    ensures TimestampPart(NameAt(stamp, place)) == stamp
    ensures Place(NameAt(stamp, place)) == place
  {
    var suffix := Text36(place, SESSION_SUFFIX_LEN);
    SuffixRoundTrip(place, suffix);
    SessionIdParts(stamp, suffix);
    SessionIdShape(NameAt(stamp, place), calendar);
  }

  lemma IdIsNameAt(id: string, calendar: Calendar)
    requires IsSessionId(id, calendar)
    ensures Place(id) < SUFFIX_SPACE && id == NameAt(TimestampPart(id), Place(id))
    ensures IsTimestamp(TimestampPart(id), calendar)
  {
    SessionIdShape(id, calendar);
    SuffixRoundTrip(0, SuffixPart(id));
  }

  /** Every name of the walk is valid, keeps the instant, and is the successor of the one before. */
  lemma WalkStep(id: string, k: nat, calendar: Calendar)
    requires IsSessionId(id, calendar)
    ensures IsSessionId(Walk(id, k), calendar)
    ensures TimestampPart(Walk(id, k)) == TimestampPart(id)
    ensures Walk(id, 0) == id
    ensures NextSessionId(Walk(id, k), calendar) == Ok(Walk(id, k + 1))
  {
    IdIsNameAt(id, calendar);
    var stamp := TimestampPart(id);
    TurnSteps(Place(id), k);
    NameAtParts(stamp, Turn(Place(id), k), calendar);
    NameAtParts(stamp, Turn(Place(id), k + 1), calendar);
  }

  /** No name repeats among the first 36^4 of the walk. */
  lemma WalkHasNoRepeat(id: string, i: nat, j: nat, calendar: Calendar)
    requires IsSessionId(id, calendar) && i < j < SUFFIX_SPACE
    ensures Walk(id, i) != Walk(id, j)
  {
    IdIsNameAt(id, calendar);
    TurnDistinct(Place(id), i, j);
    NameAtParts(TimestampPart(id), Turn(Place(id), i), calendar);
    NameAtParts(TimestampPart(id), Turn(Place(id), j), calendar);
  }

  /** Every suffix is reached, so a search for a free name ends within 36^4 steps if one is free. */
  lemma WalkReachesEverySuffix(id: string, suffix: string, calendar: Calendar) returns (k: nat)
    requires IsSessionId(id, calendar) && IsSuffix(suffix)
    ensures k < SUFFIX_SPACE && Walk(id, k) == SessionIdOf(TimestampPart(id), suffix)
  {
    IdIsNameAt(id, calendar);
    SuffixRoundTrip(0, suffix);
    k := TurnReaches(Place(id), Value36(suffix));
  }

  /** The first `n` names of the walk all name a directory. */
  ghost predicate AllTaken(start: string, n: nat, taken: set<string>) {
    forall j :: 0 <= j < n ==> Walk(start, j) in taken
  }

  /** What claiming a name comes to from try `tries` on. */
  function Claimed(start: string, tries: nat, taken: set<string>, broken: nat -> Option<BrozaError>)
    : Result<string, BrozaError>
    decreases MAX_SESSION_ATTEMPTS - tries
  {
    if tries >= MAX_SESSION_ATTEMPTS then Err(Other)
    else if broken(tries).Some? then Err(broken(tries).value)
    else if Walk(start, tries) !in taken then Ok(Walk(start, tries))
    else Claimed(start, tries + 1, taken, broken)
  }

  /** The first `k` names are taken, the next one is not, and no try up to it broke. */
  ghost predicate FirstFree(start: string, k: nat, taken: set<string>, broken: nat -> Option<BrozaError>) {
    && k < 16 && AllTaken(start, k, taken) && Walk(start, k) !in taken
    && forall j: nat :: j <= k ==> broken(j).None?
  }

  lemma {:induction false} ClaimedFrom(start: string, tries: nat, taken: set<string>, broken: nat -> Option<BrozaError>)
    requires AllTaken(start, tries, taken) && forall j: nat :: j < tries ==> broken(j).None?
    ensures Claimed(start, tries, taken, broken).Ok? <==> exists k :: FirstFree(start, k, taken, broken)
    ensures forall k :: FirstFree(start, k, taken, broken) ==> Claimed(start, tries, taken, broken) == Ok(Walk(start, k))
    decreases MAX_SESSION_ATTEMPTS - tries
  {
    hide Walk;
    if tries < MAX_SESSION_ATTEMPTS && broken(tries).None? {
      if Walk(start, tries) in taken {
        ClaimedFrom(start, tries + 1, taken, broken);
      } else {
        assert FirstFree(start, tries, taken, broken);
      }
    }
  }

  /**
   * A name is claimed exactly when one of the first sixteen is free and no try up
   * to it broke. It is that name: of the same instant, nobody else's, and the
   * plan's own exactly when that was free.
   */
  lemma ClaimedExactly(start: string, taken: set<string>, broken: nat -> Option<BrozaError>, calendar: Calendar)
    requires IsSessionId(start, calendar)
    ensures Claimed(start, 0, taken, broken).Ok? <==> exists k :: FirstFree(start, k, taken, broken)
    ensures forall k :: FirstFree(start, k, taken, broken) ==> Claimed(start, 0, taken, broken) == Ok(Walk(start, k))
    ensures Claimed(start, 0, taken, broken).Ok? ==>
              var id := Claimed(start, 0, taken, broken).value;
              && IsSessionId(id, calendar) && TimestampPart(id) == TimestampPart(start)
              && id !in taken && (id == start <==> start !in taken)
  {
    ClaimedFrom(start, 0, taken, broken);
    hide Walk, IsSessionId, TimestampPart;
    WalkStep(start, 0, calendar);
    if k :| FirstFree(start, k, taken, broken) {
      WalkStep(start, k, calendar);
      assert k > 0 ==> Walk(start, 0) in taken;
    }
  }

  /**
   * `claim_session`: the first name of the walk no directory has. `taken` holds
   * the names `create_dir_exclusive` refuses with `EEXIST`; `broken` is any other
   * failure it may answer at a try. `tries` counts the names that were taken.
   */
  method ClaimSession(start: string, taken: set<string>, broken: nat -> Option<BrozaError>, calendar: Calendar)
    returns (r: Result<string, BrozaError>, tries: nat)
    requires IsSessionId(start, calendar)
    ensures r == Claimed(start, 0, taken, broken)
    ensures tries <= MAX_SESSION_ATTEMPTS && AllTaken(start, tries, taken)
    ensures r.Ok? ==>
              && tries < MAX_SESSION_ATTEMPTS && r.value == Walk(start, tries) && r.value !in taken
              && IsSessionId(r.value, calendar) && TimestampPart(r.value) == TimestampPart(start)
    ensures r.Err? ==> tries == MAX_SESSION_ATTEMPTS || broken(tries).Some?
  {
    hide Turn, SessionIdOf, IsSessionId;
    var id := start;
    tries := 0;
    WalkStep(start, 0, calendar);
    while tries < MAX_SESSION_ATTEMPTS
      invariant tries <= MAX_SESSION_ATTEMPTS
      invariant id == Walk(start, tries)
      invariant AllTaken(start, tries, taken)
      invariant Claimed(start, tries, taken, broken) == Claimed(start, 0, taken, broken)
    {
      WalkStep(start, tries, calendar);
      if broken(tries).Some? {
        return Err(broken(tries).value), tries;
      }
      if id !in taken {
        return Ok(id), tries;
      }
      var next := NextSessionId(id, calendar);
      assert next == Ok(Walk(start, tries + 1));
      id := next.value;
      tries := tries + 1;
    }
    return Err(Other), tries;
  }
}

/** Session and entry identifiers: their grammar and their parts. */
module Ids {
  import opened Wrappers
  import opened Digits

  const SESSION_ID_PREFIX := "cln_"
  const SESSION_TIMESTAMP_LEN := 14
  const SESSION_SUFFIX_LEN := 4

  /** Whether fourteen digits are a real date and time; the calendar itself is not modelled. */
  type Calendar = string -> bool

  /** `split_once`: around the first `c`. */
  function SplitOnce(s: string, c: char): Option<(string, string)> {
    if s == "" then None
    else if s[0] == c then Some(("", s[1..]))
    else
      match SplitOnce(s[1..], c)
      case None => None
      case Some(parts) => Some(([s[0]] + parts.0, parts.1))
  }

  predicate IsTimestamp(s: string, calendar: Calendar) {
    |s| == SESSION_TIMESTAMP_LEN && AllDigits(s) && calendar(s)
  }

  predicate IsSuffix(s: string) {
    |s| == SESSION_SUFFIX_LEN && AllSuffixChars(s)
  }

  predicate IsSessionId(raw: string, calendar: Calendar) {
    && SESSION_ID_PREFIX <= raw
    && var parts := SplitOnce(raw[|SESSION_ID_PREFIX|..], '_');
       parts.Some? && IsTimestamp(parts.value.0, calendar) && IsSuffix(parts.value.1)
  }

  predicate IsEntryId(raw: string, calendar: Calendar) {
    var parts := SplitOnce(raw, '/');
    && parts.Some?
    && IsSessionId(parts.value.0, calendar)
    && parts.value.1 != "" && AllDigits(parts.value.1)
  }

  /** The `YYYYMMDDHHMMSS` part, read by position as the accessor does. */
  function TimestampPart(id: string): string {
    var start := |SESSION_ID_PREFIX|;
    if start + SESSION_TIMESTAMP_LEN <= |id| then id[start..start + SESSION_TIMESTAMP_LEN] else ""
  }

  function SuffixPart(id: string): string {
    var start := |SESSION_ID_PREFIX| + SESSION_TIMESTAMP_LEN + 1;
    if start <= |id| then id[start..] else ""
  }

  function SessionPart(id: string): string {
    match SplitOnce(id, '/') case None => "" case Some(parts) => parts.0
  }

  function SequencePart(id: string): string {
    match SplitOnce(id, '/') case None => "" case Some(parts) => parts.1
  }

  /** `text.parse::<u32>()` on digits: `None` when empty or too large. */
  function ParseU32(text: string): (r: Option<nat>)
    ensures r.Some? <==>
              text != "" && (forall i :: 0 <= i < |text| ==> '0' <= text[i] <= '9') && Value10(text) < 0x1_0000_0000
    ensures r.Some? ==> r.value == Value10(text)
  {
    if text == "" || !AllDigits(text) || Value10(text) > 0xFFFF_FFFF then None else Some(Value10(text))
  }

  lemma {:induction false} SplitOnceAtFirst(a: string, b: string, c: char)
    requires c !in a
    ensures SplitOnce(a + [c] + b, c) == Some((a, b))
  {
    var s := a + [c] + b;
    if a == "" {
      assert s[0] == c && s[1..] == b;
    } else {
      assert s[1..] == a[1..] + [c] + b;
      SplitOnceAtFirst(a[1..], b, c);
      assert a == [a[0]] + a[1..];
    }
  }

  lemma {:induction false} SplitOnceRejoins(s: string, c: char)
    ensures var parts := SplitOnce(s, c);
            if parts.None? then c !in s
            else s == parts.value.0 + [c] + parts.value.1 && c !in parts.value.0
  {
    if s != "" && s[0] != c {
      SplitOnceRejoins(s[1..], c);
      assert s == [s[0]] + s[1..];
    }
  }

  /** The accepted identifiers are exactly `cln_`, a timestamp, `_`, a suffix; the accessors give the parts back. */
  lemma SessionIdShape(raw: string, calendar: Calendar)
    ensures IsSessionId(raw, calendar) <==>
            exists stamp, suffix ::
              IsTimestamp(stamp, calendar) && IsSuffix(suffix) && raw == SessionIdOf(stamp, suffix)
    ensures IsSessionId(raw, calendar) ==>
              && IsTimestamp(TimestampPart(raw), calendar) && IsSuffix(SuffixPart(raw))
              && raw == SessionIdOf(TimestampPart(raw), SuffixPart(raw))
              && '/' !in raw
  {
    if IsSessionId(raw, calendar) {
      var rest := raw[|SESSION_ID_PREFIX|..];
      SplitOnceRejoins(rest, '_');
      var parts := SplitOnce(rest, '_').value;
      assert raw == SESSION_ID_PREFIX + rest == SessionIdOf(parts.0, parts.1);
      SessionIdParts(parts.0, parts.1);
    }
    forall stamp, suffix | IsTimestamp(stamp, calendar) && IsSuffix(suffix) && raw == SessionIdOf(stamp, suffix)
      ensures IsSessionId(raw, calendar)
    {
      assert raw[|SESSION_ID_PREFIX|..] == stamp + "_" + suffix;
      SplitOnceAtFirst(stamp, suffix, '_');
    }
  }

  /** The accepted entry identifiers are exactly a session's, `/`, and digits; the accessors give the parts back. */
  lemma EntryIdShape(raw: string, calendar: Calendar)
    ensures IsEntryId(raw, calendar) <==>
            exists session, digits ::
              IsSessionId(session, calendar) && digits != "" && AllDigits(digits) && raw == session + "/" + digits
    ensures IsEntryId(raw, calendar) ==>
              && IsSessionId(SessionPart(raw), calendar) && SequencePart(raw) != "" && AllDigits(SequencePart(raw))
              && raw == SessionPart(raw) + "/" + SequencePart(raw)
  {
    hide IsSessionId;
    SplitOnceRejoins(raw, '/');
    if session, digits :|
      IsSessionId(session, calendar) && digits != "" && AllDigits(digits) && raw == session + "/" + digits
    {
      SessionIdShape(session, calendar);
      SplitOnceAtFirst(session, digits, '/');
    }
    if IsEntryId(raw, calendar) {
      var parts := SplitOnce(raw, '/').value;
      assert raw == parts.0 + "/" + parts.1;
    }
  }

  function SessionIdOf(stamp: string, suffix: string): string {
    SESSION_ID_PREFIX + stamp + "_" + suffix
  }

  lemma SessionIdParts(stamp: string, suffix: string)
    requires |stamp| == SESSION_TIMESTAMP_LEN
    ensures TimestampPart(SessionIdOf(stamp, suffix)) == stamp
    ensures SuffixPart(SessionIdOf(stamp, suffix)) == suffix
  {
    var id := SessionIdOf(stamp, suffix);
    assert id[4..18] == stamp && id[19..] == suffix;
  }

  /** Byte order of identifiers: a session or entry id compares as its text. */
  predicate Before(a: string, b: string) {
    b != "" && (a == "" || a[0] < b[0] || (a[0] == b[0] && Before(a[1..], b[1..])))
  }

  lemma {:induction false} BeforeCommonPrefix(p: string, a: string, b: string)
    ensures Before(p + a, p + b) == Before(a, b)
  {
    if p == "" {
      assert p + a == a && p + b == b;
    } else {
      assert (p + a)[1..] == p[1..] + a && (p + b)[1..] == p[1..] + b;
      BeforeCommonPrefix(p[1..], a, b);
    }
  }

  lemma {:induction false} BeforeSnoc(a: string, b: string, x: char, y: char)
    requires |a| == |b|
    ensures Before(a + [x], b + [y]) <==> Before(a, b) || (a == b && x < y)
  {
    if a != "" {
      assert (a + [x])[1..] == a[1..] + [x] && (b + [y])[1..] == b[1..] + [y];
      BeforeSnoc(a[1..], b[1..], x, y);
      assert a == [a[0]] + a[1..] && b == [b[0]] + b[1..];
    }
  }

  /** Equally long digit strings compare as the numbers they denote. */
  lemma {:induction false} BeforeIsNumeric(a: string, b: string)
    requires |a| == |b| && AllDigits(a) && AllDigits(b)
    ensures Before(a, b) <==> Value10(a) < Value10(b)
    ensures a == b <==> Value10(a) == Value10(b)
    decreases |a|
  {
    if a != "" {
      var n := |a| - 1;
      BeforeIsNumeric(a[..n], b[..n]);
      BeforeSnoc(a[..n], b[..n], a[n], b[n]);
      assert a == a[..n] + [a[n]] && b == b[..n] + [b[n]];
    }
  }
}

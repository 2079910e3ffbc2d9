/**
 * The snapshot retention setting of the ZFS integration plugin
 * (plugins/zfs_integration/retention.c): how the RETENTION configuration
 * value is classified, and the keep tests of each kind of retention.
 *
 * The configuration value is given as a `ConfigValue`; the current time
 * (`time(NULL)`) is the parameter `now`. The C library's strtoll, in the C
 * locale with 64-bit long long, is modelled by `StrToLL`.
 */
module Retention {
  import opened Common

  /** The pkg_object kinds retention_parse distinguishes; COther is any other kind. */
  datatype ConfigValue = CNull | CBool(b: bool) | CInt(i: int) | CString(s: string) | COther

  datatype RetentionType = Disabled | ByCount | ByCreation

  datatype RetentionRecord = RetentionRecord(limit: u64, rtype: RetentionType)

  datatype RetentionError =
    | OutOfRange            // strtoll reported ERANGE
    | NotPositive(value: int) // a number, not positive, followed by more text
    | UnknownUnit           // a positive number followed by no known unit
    | WrongType             // neither null, false, an integer nor a string

  const DAY: nat := 24 * 60 * 60
  const WEEK: nat := 7 * DAY
  const MONTH: nat := 30 * DAY
  const YEAR: nat := 365 * DAY

  datatype Unit = Unit(name: string, seconds: nat)

  /** retention_units, in table order. */
  const UNITS: seq<Unit> := [
    Unit("days", DAY), Unit("day", DAY),
    Unit("weeks", WEEK), Unit("week", WEEK),
    Unit("months", MONTH), Unit("month", MONTH),
    Unit("years", YEAR), Unit("year", YEAR)
  ]

  // ---------------------------------------------------------------------
  // The C library pieces: isspace, isdigit, tolower and strtoll (base 10)

  predicate IsSpace(c: char) {
    c == ' ' || c == '\t' || c == '\n' || c == '\U{B}' || c == '\U{C}' || c == '\r'
  }

  predicate IsDigit(c: char) { '0' <= c <= '9' }

  function ToLower(c: char): char {
    if 'A' <= c <= 'Z' then (c as int + 32) as char else c
  }

  /**
   * strncasecmp(p, name, |name|) == 0 followed by p[|name|] == '\0': the whole
   * of p equals name, ignoring the case of ASCII letters.
   */
  predicate EqualsIgnoreCase(p: string, name: string) {
    |p| == |name| && forall i :: 0 <= i < |p| ==> ToLower(p[i]) == ToLower(name[i])
  }

  /** Number of leading characters of s that satisfy isspace. */
  function SpaceRun(s: string): (n: nat)
    ensures n <= |s|
  {
    if s != [] && IsSpace(s[0]) then 1 + SpaceRun(s[1..]) else 0
  }

  /** Number of leading decimal digits of s. */
  function DigitRun(s: string): (n: nat)
    ensures n <= |s|
  {
    if s != [] && IsDigit(s[0]) then 1 + DigitRun(s[1..]) else 0
  }

  /** The value of a string of decimal digits, most significant first. */
  function DecimalValue(d: string): int {
    if d == [] then 0 else DecimalValue(d[..|d| - 1]) * 10 + (d[|d| - 1] as int - '0' as int)
  }

  /**
   * strtoll(s, &endptr, 10): the value, the index endptr points at, and
   * whether errno was set to ERANGE. Leading white space and one sign are
   * skipped; with no digit the value is 0 and endptr is the start of s; a
   * value out of range is clamped to LLONG_MIN or LLONG_MAX.
   */
  function StrToLL(s: string): (res: (int, nat, bool))
    ensures INT64_MIN <= res.0 <= INT64_MAX && res.1 <= |s|
    ensures res.1 == 0 ==> res.0 == 0 && !res.2
  {
    var j := NumberStart(s);
    var d := DigitRun(s[j..]);
    if d == 0 then (0, 0, false)
    else
      var mag := DecimalValue(s[j..j + d]);
      Clamp(if NegativeSign(s) then -mag else mag, j + d)
  }

  /** Index of the first digit strtoll looks at: after white space and one sign. */
  function NumberStart(s: string): (j: nat)
    ensures j <= |s|
  {
    var i := SpaceRun(s);
    if i < |s| && (s[i] == '+' || s[i] == '-') then i + 1 else i
  }

  predicate NegativeSign(s: string) {
    var i := SpaceRun(s);
    i < |s| && s[i] == '-'
  }

  /** The value strtoll returns, the end index, and whether it had to clamp. */
  function Clamp(v: int, end: nat): (res: (int, nat, bool))
    ensures INT64_MIN <= res.0 <= INT64_MAX && res.1 == end
    ensures res.2 <==> v < INT64_MIN || v > INT64_MAX
    ensures !res.2 ==> res.0 == v
  {
    if v > INT64_MAX then (INT64_MAX, end, true)
    else if v < INT64_MIN then (INT64_MIN, end, true)
    else (v, end, false)
  }

  // ---------------------------------------------------------------------
  // retention_parse

  /** Drops the leading ' ' characters (only the space character). */
  function TrimSpaces(s: string): (t: string)
    ensures t == [] || t[0] != ' '
  {
    if s != [] && s[0] == ' ' then TrimSpaces(s[1..]) else s
  }

  /** Seconds of the first unit of the table that the word names, ignoring case. */
  function UnitSeconds(word: string): (r: Option<nat>)
    ensures r.Some? <==> exists i :: 0 <= i < |UNITS| && EqualsIgnoreCase(word, UNITS[i].name)
    ensures forall i :: 0 <= i < |UNITS| && EqualsIgnoreCase(word, UNITS[i].name) ==> r == Some(UNITS[i].seconds)
  {
    FirstUnit(word, 0)
  }

  function FirstUnit(word: string, from: nat): (r: Option<nat>)
    requires from <= |UNITS|
    ensures r.Some? <==> exists i :: from <= i < |UNITS| && EqualsIgnoreCase(word, UNITS[i].name)
    ensures forall i :: from <= i < |UNITS| && EqualsIgnoreCase(word, UNITS[i].name) ==> r == Some(UNITS[i].seconds)
    decreases |UNITS| - from
  {
    if from == |UNITS| then None
    else if EqualsIgnoreCase(word, UNITS[from].name) then
      UnitsNamesDistinct(word, from);
      Some(UNITS[from].seconds)
    else FirstUnit(word, from + 1)
  }

  /** The length of time of a unit name, which its initial letter settles. */
  function InitialSeconds(c: char): nat {
    if c == 'd' then DAY else if c == 'w' then WEEK else if c == 'm' then MONTH else YEAR
  }

  /** Every unit name starts with a lower-case letter that settles its length of time. */
  lemma UnitTable()
    ensures forall k :: 0 <= k < |UNITS| ==>
      |UNITS[k].name| > 0 && UNITS[k].name[0] in {'d', 'w', 'm', 'y'} &&
      UNITS[k].seconds == InitialSeconds(UNITS[k].name[0])
  {
  }

  /** Two table entries a word matches have the same length of time. */
  lemma UnitsNamesDistinct(word: string, i: nat)
    requires i < |UNITS| && EqualsIgnoreCase(word, UNITS[i].name)
    ensures forall j :: 0 <= j < |UNITS| && EqualsIgnoreCase(word, UNITS[j].name) ==> UNITS[j].seconds == UNITS[i].seconds
  {
    UnitTable();
    forall j | 0 <= j < |UNITS| && EqualsIgnoreCase(word, UNITS[j].name)
      ensures UNITS[j].seconds == UNITS[i].seconds
    {
      assert ToLower(UNITS[j].name[0]) == ToLower(word[0]) == ToLower(UNITS[i].name[0]);
    }
  }

  /** What retention_parse yields for a configuration value at time now. */
  function Classify(cfg: ConfigValue, now: int): Result<RetentionRecord, RetentionError> {
    match cfg
    case CNull => Ok(RetentionRecord(0, Disabled))
    case CBool(b) => if b then Err(WrongType) else Ok(RetentionRecord(0, Disabled))
    case CInt(i) => if i > 0 then Ok(RetentionRecord(ToUint64(i), ByCount)) else Ok(RetentionRecord(0, Disabled))
    case CString(s) => ClassifyString(s, now)
    case COther => Err(WrongType)
  }

  /** A by-creation record keeping what is younger than value units of secs seconds. */
  function AgeRecord(now: int, value: int, secs: nat): RetentionRecord {
    RetentionRecord(ToUint64(now - value * secs), ByCreation)
  }

  /** The outcome of the unit lookup after a positive number. */
  function AgeResult(secs: Option<nat>, value: int, now: int): Result<RetentionRecord, RetentionError> {
    match secs
    case Some(n) => Ok(AgeRecord(now, value, n))
    case None => Err(UnknownUnit)
  }

  /** What retention_parse yields for a string value at time now. */
  function ClassifyString(s: string, now: int): Result<RetentionRecord, RetentionError> {
    var (value, end, erange) := StrToLL(s);
    if erange then Err(OutOfRange)
    else if end == |s| then Ok(RetentionRecord(ToUint64(value), if value > 0 then ByCount else Disabled))
    else if value <= 0 then Err(NotPositive(value))
    else AgeResult(UnitSeconds(TrimSpaces(s[end..])), value, now)
  }

  /**
   * retention_parse: starts from a disabled record and fills it according to
   * the kind of the value; a string goes through strtoll, then, after a
   * positive number, past the spaces and through the unit table.
   */
  method Parse(cfg: ConfigValue, now: int) returns (r: Result<RetentionRecord, RetentionError>)
    requires cfg.CInt? ==> cfg.i <= INT64_MAX
    ensures r == Classify(cfg, now)
  {
    var limit: u64 := 0;
    var rtype := Disabled;
    match cfg {
      case CNull =>
      case CBool(b) =>
        if b {
          return Err(WrongType);
        }
      case CInt(i) =>
        if i > 0 {
          limit := i;
          rtype := ByCount;
        }
      case CString(s) =>
        r := ParseString(s, now);
        return;
      case COther =>
        return Err(WrongType);
    }
    r := Ok(RetentionRecord(limit, rtype));
  }

  /**
   * The string branch of retention_parse: strtoll, then, after a positive
   * number that is not the whole string, the spaces and the unit.
   */
  method ParseString(s: string, now: int) returns (r: Result<RetentionRecord, RetentionError>)
    ensures r == ClassifyString(s, now)
  {
    var (value, end, erange) := StrToLL(s);
    if erange {
      return Err(OutOfRange);
    }
    if end == |s| {
      return Ok(RetentionRecord(ToUint64(value), if value > 0 then ByCount else Disabled));
    }
    if value <= 0 {
      return Err(NotPositive(value));
    }
    r := ParseAge(s[end..], value, now);
  }

  /** The rest of the string after a positive number: spaces, then a unit name. */
  method ParseAge(rest: string, value: int, now: int) returns (r: Result<RetentionRecord, RetentionError>)
    ensures r == AgeResult(UnitSeconds(TrimSpaces(rest)), value, now)
  {
    var p := 0;
    while p < |rest| && rest[p] == ' '
      invariant 0 <= p <= |rest|
      invariant TrimSpaces(rest) == TrimSpaces(rest[p..])
    {
      assert rest[p..][1..] == rest[p + 1..];
      p := p + 1;
    }
    assert TrimSpaces(rest[p..]) == rest[p..];
    var secs := FindUnit(rest[p..]);
    r := AgeResult(secs, value, now);
  }

  /** The loop over retention_units comparing a word with each name. */
  method FindUnit(word: string) returns (secs: Option<nat>)
    ensures secs == UnitSeconds(word)
  {
    var i := 0;
    while i < |UNITS|
      invariant 0 <= i <= |UNITS|
      invariant FirstUnit(word, 0) == FirstUnit(word, i)
    {
      if EqualsIgnoreCase(word, UNITS[i].name) {
        return Some(UNITS[i].seconds);
      }
      i := i + 1;
    }
    return None;
  }

  // ---------------------------------------------------------------------
  // What retention_parse accepts

  predicate AllDigits(d: string) {
    forall i :: 0 <= i < |d| ==> IsDigit(d[i])
  }

  /** A string of k spaces. */
  function Spaces(k: nat): (sp: string)
    ensures |sp| == k && forall i :: 0 <= i < k ==> sp[i] == ' '
  {
    if k == 0 then [] else [' '] + Spaces(k - 1)
  }

  /** The value of an optional sign followed by digits. */
  function Signed(sign: string, d: string): int {
    if sign == "-" then -DecimalValue(d) else DecimalValue(d)
  }

  /** The digits of d followed by a tail that does not start with a digit. */
  lemma {:induction false} DigitRunOf(d: string, tail: string)
    requires AllDigits(d)
    requires tail == [] || !IsDigit(tail[0])
    ensures DigitRun(d + tail) == |d|
    decreases |d|
  {
    if d != [] {
      assert (d + tail)[1..] == d[1..] + tail;
      DigitRunOf(d[1..], tail);
    }
  }

  /**
   * strtoll reads an optional sign and a run of digits up to the first
   * character that is not a digit; a value out of the 64-bit range is
   * reported as ERANGE.
   */
  lemma StrToLLNumber(sign: string, d: string, tail: string, s: string)
    requires sign == "" || sign == "+" || sign == "-"
    requires d != [] && AllDigits(d)
    requires tail == [] || !IsDigit(tail[0])
    requires s == sign + d + tail
    ensures StrToLL(s) == Clamp(Signed(sign, d), |sign| + |d|)
  {
    assert !IsSpace(s[0]);
    assert SpaceRun(s) == 0;
    assert NumberStart(s) == |sign|;
    assert NegativeSign(s) <==> sign == "-";
    assert s[|sign|..] == d + tail;
    DigitRunOf(d, tail);
    assert s[|sign|..|sign| + |d|] == d;
  }

  /** A whole string that is a number: by count when positive, disabled otherwise. */
  lemma WholeNumberString(sign: string, d: string, now: int)
    requires sign == "" || sign == "+" || sign == "-"
    requires d != [] && AllDigits(d)
    ensures var v := Signed(sign, d);
      INT64_MIN <= v <= INT64_MAX ==>
        Classify(CString(sign + d), now) == Ok(RetentionRecord(ToUint64(v), if v > 0 then ByCount else Disabled))
  {
    assert sign + d == sign + d + "";
    StrToLLNumber(sign, d, "", sign + d);
  }

  /** A number outside the 64-bit range is refused. */
  lemma NumberOutOfRange(sign: string, d: string, tail: string, now: int)
    requires sign == "" || sign == "+" || sign == "-"
    requires d != [] && AllDigits(d)
    requires tail == [] || !IsDigit(tail[0])
    requires DecimalValue(d) > INT64_MAX + 1 || (sign != "-" && DecimalValue(d) > INT64_MAX)
    ensures Classify(CString(sign + d + tail), now) == Err(OutOfRange)
  {
    StrToLLNumber(sign, d, tail, sign + d + tail);
  }

  /**
   * A positive number, any number of spaces and a unit name in any case: by
   * creation, keeping the snapshots younger than that many units before now.
   */
  lemma NumberWithUnit(d: string, k: nat, word: string, i: nat, now: int)
    requires d != [] && AllDigits(d) && 0 < DecimalValue(d) <= INT64_MAX
    requires i < |UNITS| && EqualsIgnoreCase(word, UNITS[i].name)
    ensures Classify(CString(d + Spaces(k) + word), now) == Ok(AgeRecord(now, DecimalValue(d), UNITS[i].seconds))
  {
    var tail := Spaces(k) + word;
    var s := d + Spaces(k) + word;
    UnitWordStart(word, i);
    assert tail[0] == if k == 0 then word[0] else ' ';
    assert s == d + tail;
    UnsignedNumber(d, tail);
    assert s[|d|..] == tail;
    TrimSpacesOf(k, word);
    ClassifyAfterNumber(s, DecimalValue(d), |d|, now);
  }

  /** A unit name starts with a letter. */
  lemma UnitWordStart(word: string, i: nat)
    requires i < |UNITS| && EqualsIgnoreCase(word, UNITS[i].name)
    ensures word != [] && word[0] != ' ' && !IsDigit(word[0])
  {
    UnitTable();
    assert ToLower(word[0]) == ToLower(UNITS[i].name[0]);
  }

  /** strtoll on unsigned digits in range followed by a non-digit. */
  lemma UnsignedNumber(d: string, tail: string)
    requires d != [] && AllDigits(d) && DecimalValue(d) <= INT64_MAX
    requires tail == [] || !IsDigit(tail[0])
    ensures StrToLL(d + tail) == (DecimalValue(d), |d|, false)
  {
    var s := d + tail;
    assert s[0] == d[0];
    assert SpaceRun(s) == 0;
    assert NumberStart(s) == 0 && !NegativeSign(s);
    assert s[0..] == s;
    DigitRunOf(d, tail);
    assert s[0..|d|] == d;
    DecimalNonNegative(d);
  }

  lemma {:induction false} DecimalNonNegative(d: string)
    requires AllDigits(d)
    ensures DecimalValue(d) >= 0
    decreases |d|
  {
    if d != [] {
      DecimalNonNegative(d[..|d| - 1]);
    }
  }

  /** How a string is classified once strtoll has read a positive number that is not all of it. */
  lemma ClassifyAfterNumber(s: string, v: int, end: nat, now: int)
    requires StrToLL(s) == (v, end, false) && v > 0 && end < |s|
    ensures Classify(CString(s), now) == AgeResult(UnitSeconds(TrimSpaces(s[end..])), v, now)
  {
  }

  lemma {:induction false} TrimSpacesOf(k: nat, word: string)
    requires word == [] || word[0] != ' '
    ensures TrimSpaces(Spaces(k) + word) == word
    decreases k
  {
    if k > 0 {
      assert Spaces(k) + word == [' '] + (Spaces(k - 1) + word);
      TrimSpacesOf(k - 1, word);
    }
  }

  /** A positive number followed only by spaces names no unit and is refused. */
  lemma NumberWithTrailingSpaces(d: string, k: nat, now: int)
    requires d != [] && AllDigits(d) && 0 < DecimalValue(d) <= INT64_MAX
    requires k > 0
    ensures Classify(CString(d + Spaces(k)), now) == Err(UnknownUnit)
  {
    var s := d + Spaces(k);
    UnsignedNumber(d, Spaces(k));
    assert s[|d|..] == Spaces(k) + [];
    TrimSpacesOf(k, []);
    UnitTable();
    ClassifyAfterNumber(s, DecimalValue(d), |d|, now);
  }

  /** A string that does not start with a number (after white space and a sign) is refused. */
  lemma NoNumberRefused(s: string, now: int)
    requires s != []
    requires NumberStart(s) == |s| || !IsDigit(s[NumberStart(s)])
    ensures Classify(CString(s), now) == Err(NotPositive(0))
  {
    var j := NumberStart(s);
    assert DigitRun(s[j..]) == 0;
    assert StrToLL(s) == (0, 0, false);
  }

  /**
   * The kinds other than strings: null, false and integers up to 0 disable
   * retention, positive integers count, anything else is refused.
   */
  lemma NonStringValues(cfg: ConfigValue, now: int)
    requires !cfg.CString?
    ensures Classify(cfg, now).Ok? && IsDisabled(Classify(cfg, now).value) <==>
      cfg == CNull || cfg == CBool(false) || (cfg.CInt? && cfg.i <= 0)
    ensures cfg.CInt? && 0 < cfg.i <= INT64_MAX ==> Classify(cfg, now) == Ok(RetentionRecord(cfg.i, ByCount))
    ensures cfg == CBool(true) || cfg == COther ==> Classify(cfg, now) == Err(WrongType)
  {
  }

  /** retention_disabled */
  predicate IsDisabled(r: RetentionRecord) {
    r.rtype == Disabled
  }

  // ---------------------------------------------------------------------
  // The keep tests

  /**
   * retention_keep, the entry point the plugin exports: it ignores both
   * the retention and the value and keeps every snapshot. The kind table
   * that pairs each kind with its test below is read nowhere, so none of
   * the three tests is reached.
   */
  function RetentionKeep(r: RetentionRecord, value: u64): (keep: bool)
    ensures keep
  {
    true
  }

  /** retention_disabled_keep: every snapshot is kept. */
  function DisabledKeep(value: u64, limit: u64, state: u64): (keep: bool)
    ensures keep
  {
    true
  }

  /** retention_by_creation_keep: snapshots created at or after the limit are kept. */
  function ByCreationKeep(value: u64, limit: u64, state: u64): (keep: bool)
    ensures keep <==> value >= limit
  {
    value >= limit
  }

  /** One call of retention_by_count_keep: keep while the counter is at most the limit. */
  function CountStep(limit: u64, state: u64): (bool, u64) {
    if state <= limit then (true, ToUint64(state + 1)) else (false, state)
  }

  /** retention_by_count_keep, with the counter *state passed in and out. */
  method ByCountKeep(value: u64, limit: u64, state: u64) returns (keep: bool, newState: u64)
    ensures (keep, newState) == CountStep(limit, state)
    ensures keep <==> state <= limit
    ensures keep ==> newState == ToUint64(state + 1)
    ensures !keep ==> newState == state
  {
    keep := state <= limit;
    newState := state;
    if keep {
      newState := ToUint64(newState + 1);
    }
  }

  /** The keep answers of n successive calls starting from counter `state`. */
  function CountRun(limit: u64, state: u64, n: nat): (keeps: seq<bool>)
    ensures |keeps| == n
    decreases n
  {
    if n == 0 then []
    else
      var (keep, next) := CountStep(limit, state);
      [keep] + CountRun(limit, next, n - 1)
  }

  /**
   * From a counter of 0, the by-count test keeps the first limit + 1
   * snapshots and none after them.
   */
  lemma {:induction false} CountKeepsLimitPlusOne(limit: u64, state: u64, n: nat)
    requires limit < UINT64_MAX && state <= limit + 1
    ensures forall k :: 0 <= k < n ==> (CountRun(limit, state, n)[k] <==> state + k <= limit)
    decreases n
  {
    if n > 0 {
      var (keep, next) := CountStep(limit, state);
      if keep {
        assert next == state + 1;
        CountKeepsLimitPlusOne(limit, next, n - 1);
      } else {
        assert next == state;
        CountKeepsLimitPlusOne(limit, next, n - 1);
      }
      forall k | 0 <= k < n
        ensures CountRun(limit, state, n)[k] <==> state + k <= limit
      {
        if k > 0 {
          assert CountRun(limit, state, n)[k] == CountRun(limit, next, n - 1)[k - 1];
        }
      }
    }
  }

  /** A limit of 1 keeps two snapshots out of three. */
  lemma CountLimitOneKeepsTwo()
    ensures CountRun(1, 0, 3) == [true, true, false]
  {
    CountKeepsLimitPlusOne(1, 0, 3);
  }

  /** The by-count test as its description ("keep the N most recent snapshots") reads. */
  function CountStepFixed(limit: u64, state: u64): (bool, u64) {
    if state < limit then (true, state + 1) else (false, state)
  }

  function CountRunFixed(limit: u64, state: u64, n: nat): (keeps: seq<bool>)
    ensures |keeps| == n
    decreases n
  {
    if n == 0 then []
    else
      var (keep, next) := CountStepFixed(limit, state);
      [keep] + CountRunFixed(limit, next, n - 1)
  }

  /** From a counter of 0, the corrected test keeps exactly the first limit snapshots. */
  lemma {:induction false} CountFixedKeepsLimit(limit: u64, state: u64, n: nat)
    requires state <= limit
    ensures forall k :: 0 <= k < n ==> (CountRunFixed(limit, state, n)[k] <==> state + k < limit)
    decreases n
  {
    if n > 0 {
      var (keep, next) := CountStepFixed(limit, state);
      CountFixedKeepsLimit(limit, next, n - 1);
      forall k | 0 <= k < n
        ensures CountRunFixed(limit, state, n)[k] <==> state + k < limit
      {
        if k > 0 {
          assert CountRunFixed(limit, state, n)[k] == CountRunFixed(limit, next, n - 1)[k - 1];
        }
      }
    }
  }
}

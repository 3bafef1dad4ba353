/** Durations such as `2h30m` (src/schedule.rs). */
module Duration {
  import opened Text

  const U64: nat := 0x1_0000_0000_0000_0000

  // ── The grammar ─────────────────────────────────────────────────────────────

  predicate IsDigit(c: char) { '0' <= c <= '9' }

  predicate AllDigits(s: string) { forall i :: 0 <= i < |s| ==> IsDigit(s[i]) }

  function DigitValue(c: char): nat {
    if IsDigit(c) then (c - '0') as nat else 0
  }

  /** The number a digit string stands for. */
  function Value(digits: string): nat {
    if digits == [] then 0
    else 10 * Value(digits[..|digits| - 1]) + DigitValue(digits[|digits| - 1])
  }

  predicate IsUnit(c: char) { c in "smhd" }

  function Seconds(n: nat, unit: char): nat {
    match unit
    case 'm' => n * 60
    case 'h' => n * 3_600
    case 'd' => n * 86_400
    case _ => n
  }

  datatype Term = Term(digits: string, unit: char)

  ghost predicate Shaped(t: Term) {
    AllDigits(t.digits) && !IsDigit(t.unit)
  }

  ghost predicate WellFormed(t: Term) {
    Shaped(t) && t.digits != [] && Value(t.digits) < U64 && IsUnit(t.unit)
  }

  ghost function Render(ts: seq<Term>): string {
    if ts == [] then "" else ts[0].digits + [ts[0].unit] + Render(ts[1..])
  }

  ghost function Total(ts: seq<Term>): nat
    decreases |ts|
  {
    if ts == [] then 0
    else Total(ts[..|ts| - 1]) + Seconds(Value(ts[|ts| - 1].digits), ts[|ts| - 1].unit)
  }

  ghost predicate Denotes(s: string, ts: seq<Term>) {
    (forall i :: 0 <= i < |ts| ==> WellFormed(ts[i])) && Render(ts) == s
  }

  ghost predicate IsDuration(s: string) {
    exists ts :: Denotes(s, ts)
  }

  ghost function Reading(s: string): (ts: seq<Term>)
    requires IsDuration(s)
    ensures Denotes(s, ts)
  {
    var ts :| Denotes(s, ts);
    ts
  }

  /** Whether `s` is a sequence of terms, and how many seconds they add up to. */
  ghost function Meaning(s: string): Option<nat> {
    if IsDuration(s) then Some(Total(Reading(s))) else None
  }

  // ── A string is cut into terms in one way only ──────────────────────────────

  lemma SameCut(d: string, u: char, r: string, d': string, u': char, r': string)
    requires AllDigits(d) && AllDigits(d') && !IsDigit(u) && !IsDigit(u')
    requires d + [u] + r == d' + [u'] + r'
    ensures d == d' && u == u' && r == r'
  {
    var s := d + [u] + r;
    assert s[|d|] == u && s[|d'|] == u';
    assert forall i :: 0 <= i < |d| ==> s[i] == d[i];
    assert forall i :: 0 <= i < |d'| ==> s[i] == d'[i];
    assert |d| == |d'|;
    assert d == s[..|d|] == d';
    assert r == s[|d| + 1..] == r';
  }

  lemma FirstTerm(ts: seq<Term>, digits: string, unit: char, rest: string)
    requires forall i :: 0 <= i < |ts| ==> Shaped(ts[i])
    requires AllDigits(digits) && !IsDigit(unit)
    requires Render(ts) == digits + [unit] + rest
    ensures ts != [] && ts[0] == Term(digits, unit) && Render(ts[1..]) == rest
  {
    assert ts != [];
    SameCut(ts[0].digits, ts[0].unit, Render(ts[1..]), digits, unit, rest);
  }

  lemma NotAllDigits(ts: seq<Term>)
    requires ts != [] && Shaped(ts[0])
    ensures !AllDigits(Render(ts))
  {
    var s := Render(ts);
    assert s == ts[0].digits + [ts[0].unit] + Render(ts[1..]);
    assert s[|ts[0].digits|] == ts[0].unit;
  }

  lemma {:induction false} CommonTerms(ts: seq<Term>, all: seq<Term>, rest: string)
    requires forall i :: 0 <= i < |ts| ==> Shaped(ts[i])
    requires forall i :: 0 <= i < |all| ==> Shaped(all[i])
    requires Render(all) == Render(ts) + rest
    ensures |ts| <= |all| && all[..|ts|] == ts && Render(all[|ts|..]) == rest
    decreases |ts|
  {
    if ts == [] {
      assert all[0..] == all;
    } else {
      var t := ts[0];
      assert Render(ts) + rest == t.digits + [t.unit] + (Render(ts[1..]) + rest);
      FirstTerm(all, t.digits, t.unit, Render(ts[1..]) + rest);
      CommonTerms(ts[1..], all[1..], rest);
      assert all[1..][|ts| - 1..] == all[|ts|..];
      assert all[..|ts|] == [all[0]] + all[1..][..|ts| - 1];
    }
  }

  lemma OneReading(s: string, ts: seq<Term>, other: seq<Term>)
    requires Denotes(s, ts) && Denotes(s, other)
    ensures ts == other
  {
    assert Render(other) == Render(ts) + "" && Render(ts) == Render(other) + "";
    CommonTerms(ts, other, "");
    CommonTerms(other, ts, "");
  }

  lemma MeaningIsUnambiguous(s: string, ts: seq<Term>)
    requires Denotes(s, ts)
    ensures Meaning(s) == Some(Total(ts))
  {
    OneReading(s, ts, Reading(s));
  }

  lemma {:induction false} RenderConcat(a: seq<Term>, b: seq<Term>)
    ensures Render(a + b) == Render(a) + Render(b)
    decreases |a|
  {
    if a == [] {
      assert a + b == b;
    } else {
      assert (a + b)[1..] == a[1..] + b;
      RenderConcat(a[1..], b);
    }
  }

  lemma {:induction false} TotalConcat(a: seq<Term>, b: seq<Term>)
    ensures Total(a + b) == Total(a) + Total(b)
    decreases |b|
  {
    if b == [] {
      assert a + b == a;
    } else {
      assert (a + b)[..|a + b| - 1] == a + b[..|b| - 1];
      TotalConcat(a, b[..|b| - 1]);
    }
  }

  lemma ReadingsJoin(a: string, x: seq<Term>, b: string, y: seq<Term>)
    requires Denotes(a, x) && Denotes(b, y)
    ensures Denotes(a + b, x + y) && Total(x + y) == Total(x) + Total(y)
  {
    RenderConcat(x, y);
    TotalConcat(x, y);
  }

  lemma JoinedMeaning(a: string, x: seq<Term>, b: string, y: seq<Term>)
    requires Denotes(a, x) && Denotes(b, y)
    ensures Meaning(a + b) == Some(Total(x) + Total(y))
  {
    ReadingsJoin(a, x, b, y);
    MeaningIsUnambiguous(a + b, x + y);
  }

  /** Writing two durations one after the other adds them. */
  lemma ConcatenationAdds(a: string, m: nat, b: string, n: nat)
    requires Meaning(a) == Some(m) && Meaning(b) == Some(n)
    ensures Meaning(a + b) == Some(m + n)
  {
    hide Denotes;
    var x := HasReading(a, m);
    var y := HasReading(b, n);
    JoinedMeaning(a, x, b, y);
  }

  lemma HasReading(s: string, n: nat) returns (ts: seq<Term>)
    requires Meaning(s) == Some(n)
    ensures Denotes(s, ts) && Total(ts) == n
  {
    ts := Reading(s);
  }

  // ── The parser ──────────────────────────────────────────────────────────────

  datatype Reason = InvalidNumber | UnknownUnit | NumberWithoutUnit | NotPositive
  datatype Outcome = Parsed(secs: nat) | Rejected(reason: Reason) | Overflow

  /** What the parser answers, given what the string means: a release build wraps
      at 2^64, a build with overflow checks stops. */
  ghost function Answer(meaning: nat, checked: bool): Outcome {
    if checked && meaning >= U64 then Overflow
    else if meaning % U64 == 0 then Rejected(NotPositive)
    else Parsed(meaning % U64)
  }

  lemma NoReading(ts: seq<Term>, digits: string, stop: char, rest: string, all: seq<Term>)
    requires forall i :: 0 <= i < |ts| ==> WellFormed(ts[i])
    requires forall i :: 0 <= i < |all| ==> WellFormed(all[i])
    requires AllDigits(digits) && !IsDigit(stop)
    requires Render(all) == Render(ts) + (digits + [stop] + rest)
    ensures Term(digits, stop) in all
  {
    CommonTerms(ts, all, digits + [stop] + rest);
    FirstTerm(all[|ts|..], digits, stop, rest);
    assert all[|ts|..][0] == all[|ts|];
  }

  /** No string that begins with these terms and then `stop` is a duration, if the
      digits before `stop` or `stop` itself cannot close a term. */
  lemma NoMeaning(s: string, ts: seq<Term>, digits: string, stop: char, rest: string)
    requires forall i :: 0 <= i < |ts| ==> WellFormed(ts[i])
    requires AllDigits(digits) && !IsDigit(stop) && !WellFormed(Term(digits, stop))
    requires s == Render(ts) + digits + [stop] + rest
    ensures Meaning(s) == None
  {
    assert s == Render(ts) + (digits + [stop] + rest);
    forall all ensures !Denotes(s, all) {
      if Denotes(s, all) {
        NoReading(ts, digits, stop, rest, all);
        assert false;
      }
    }
  }

  lemma NoMeaningAtEnd(s: string, ts: seq<Term>, digits: string)
    requires forall i :: 0 <= i < |ts| ==> WellFormed(ts[i])
    requires AllDigits(digits) && digits != []
    requires s == Render(ts) + digits
    ensures Meaning(s) == None
  {
    forall all ensures !Denotes(s, all) {
      if Denotes(s, all) {
        CommonTerms(ts, all, digits);
        NotAllDigits(all[|ts|..]);
        assert false;
      }
    }
  }

  lemma OneMoreRendered(ts: seq<Term>, t: Term)
    ensures Render(ts + [t]) == Render(ts) + t.digits + [t.unit]
  {
    RenderConcat(ts, [t]);
    assert [t][1..] == [];
    assert Render([t]) == t.digits + [t.unit];
  }

  lemma OneMoreCounted(ts: seq<Term>, t: Term)
    ensures Total(ts + [t]) == Total(ts) + Seconds(Value(t.digits), t.unit)
  {}

  lemma {:induction false} TotalGrows(ts: seq<Term>, more: seq<Term>)
    requires ts <= more
    ensures Total(ts) <= Total(more)
  {
    assert more == ts + more[|ts|..];
    TotalConcat(ts, more[|ts|..]);
  }

  /** A checked build can only stop once the terms read so far already exceed
      the range, so a string with a meaning stops exactly when its total does. */
  lemma OverflowIsFinal(s: string, ts: seq<Term>, rest: string)
    requires forall i :: 0 <= i < |ts| ==> WellFormed(ts[i])
    requires s == Render(ts) + rest && Total(ts) >= U64
    ensures Meaning(s).Some? ==> Meaning(s).value >= U64
  {
    if IsDuration(s) {
      CommonTerms(ts, Reading(s), rest);
      TotalGrows(ts, Reading(s));
    }
  }

  /** One wrapping multiplication and one wrapping addition. */
  function Add(total: nat, secs: nat, checked: bool): Option<nat> {
    if checked && (secs >= U64 || total + secs >= U64) then None
    else Some((total + secs % U64) % U64)
  }

  lemma AddWraps(sum: nat, secs: nat, checked: bool)
    requires checked ==> sum < U64
    ensures Add(sum % U64, secs, checked) == if checked && sum + secs >= U64 then None else Some((sum + secs) % U64)
  {}

  /** The first part of a string, read as terms and a number not yet closed. */
  ghost predicate ReadSoFar(prefix: string, ts: seq<Term>, buf: string) {
    (forall j :: 0 <= j < |ts| ==> WellFormed(ts[j])) && AllDigits(buf) && prefix == Render(ts) + buf
  }

  lemma ClosedTerm(s: string, i: nat, ts: seq<Term>, buf: string)
    requires i < |s| && ReadSoFar(s[..i], ts, buf) && WellFormed(Term(buf, s[i]))
    ensures ReadSoFar(s[..i + 1], ts + [Term(buf, s[i])], "")
  {
    OneMoreRendered(ts, Term(buf, s[i]));
  }

  lemma CannotClose(s: string, i: nat, ts: seq<Term>, buf: string)
    requires i < |s| && ReadSoFar(s[..i], ts, buf) && !IsDigit(s[i]) && !WellFormed(Term(buf, s[i]))
    ensures Meaning(s) == None
  {
    assert s == s[..i] + [s[i]] + s[i + 1..];
    NoMeaning(s, ts, buf, s[i], s[i + 1..]);
  }

  lemma TooMuch(s: string, i: nat, ts: seq<Term>)
    requires i <= |s| && ReadSoFar(s[..i], ts, "") && Total(ts) >= U64
    ensures Meaning(s).Some? ==> Meaning(s).value >= U64
  {
    assert s == s[..i] + s[i..];
    OverflowIsFinal(s, ts, s[i..]);
  }

  ghost predicate Right(s: string, checked: bool, r: Outcome) {
    match Meaning(s)
    case Some(secs) => r == Answer(secs, checked)
    case None => (r.Rejected? && r.reason != NotPositive) || (checked && r == Overflow)
  }

  datatype Closed = Next(total: nat) | Stop(outcome: Outcome)

  /** A character that is no digit closes the number before it. */
  method CloseTerm(s: string, checked: bool, i: nat, total: nat, buf: string, ghost ts: seq<Term>) returns (r: Closed)
    requires i < |s| && !IsDigit(s[i]) && ReadSoFar(s[..i], ts, buf)
    requires total == Total(ts) % U64 && (checked ==> Total(ts) < U64)
    ensures match r
      case Stop(outcome) => Right(s, checked, outcome)
      case Next(next) =>
        var more := ts + [Term(buf, s[i])];
        ReadSoFar(s[..i + 1], more, "") && next == Total(more) % U64 && (checked ==> Total(more) < U64)
  {
    if buf == [] || Value(buf) >= U64 {
      CannotClose(s, i, ts, buf);
      return Stop(Rejected(InvalidNumber));
    }
    var n := Value(buf);
    if !IsUnit(s[i]) {
      CannotClose(s, i, ts, buf);
      return Stop(Rejected(UnknownUnit));
    }
    ClosedTerm(s, i, ts, buf);
    OneMoreCounted(ts, Term(buf, s[i]));
    AddWraps(Total(ts), Seconds(n, s[i]), checked);
    var sum := Add(total, Seconds(n, s[i]), checked);
    if sum.None? {
      TooMuch(s, i + 1, ts + [Term(buf, s[i])]);
      return Stop(Overflow);
    }
    r := Next(sum.value);
  }

  method ParseDuration(s: string, checked: bool) returns (r: Outcome)
    ensures Right(s, checked, r)
  {
    var total: nat := 0;
    var buf := "";
    ghost var ts: seq<Term> := [];
    for i := 0 to |s|
      invariant ReadSoFar(s[..i], ts, buf)
      invariant total == Total(ts) % U64 && (checked ==> Total(ts) < U64)
    {
      var ch := s[i];
      if IsDigit(ch) {
        buf := buf + [ch];
        assert s[..i + 1] == s[..i] + [ch];
      } else {
        var closed := CloseTerm(s, checked, i, total, buf, ts);
        if closed.Stop? {
          return closed.outcome;
        }
        total := closed.total;
        ts := ts + [Term(buf, ch)];
        buf := "";
      }
    }
    assert s[..|s|] == s;
    if buf != [] {
      NoMeaningAtEnd(s, ts, buf);
      return Rejected(NumberWithoutUnit);
    }
    MeaningIsUnambiguous(s, ts);
    if total == 0 {
      return Rejected(NotPositive);
    }
    r := Parsed(total);
  }

  // ── The usual way of writing a duration ─────────────────────────────────────

  function Decimal(n: nat): (s: string)
    ensures AllDigits(s) && s != []
  {
    (if n < 10 then "" else Decimal(n / 10)) + [(n % 10) as char + '0']
  }

  lemma {:induction false} DecimalValue(n: nat)
    ensures Value(Decimal(n)) == n
  {
    var s := Decimal(n);
    assert s[|s| - 1] == (n % 10) as char + '0';
    if n < 10 {
      assert s[..|s| - 1] == "";
    } else {
      DecimalValue(n / 10);
      assert s[..|s| - 1] == Decimal(n / 10);
    }
  }

  function TermIf(n: nat, unit: char): seq<Term> {
    if n == 0 then [] else [Term(Decimal(n), unit)]
  }

  /** Days, hours, minutes and seconds, leaving out the zero ones. */
  function Canonical(n: nat): seq<Term> {
    TermIf(n / 86_400, 'd') + TermIf(n % 86_400 / 3_600, 'h')
    + TermIf(n % 86_400 % 3_600 / 60, 'm') + TermIf(n % 86_400 % 3_600 % 60, 's')
  }

  ghost predicate Spells(ts: seq<Term>, n: nat) {
    Denotes(Render(ts), ts) && Total(ts) == n
  }

  lemma SpellOne(n: nat, unit: char)
    requires n < U64 && IsUnit(unit)
    ensures Spells(TermIf(n, unit), Seconds(n, unit))
  {
    if n > 0 {
      DecimalValue(n);
      assert [Term(Decimal(n), unit)][..0] == [];
    }
  }

  lemma SpellBoth(a: seq<Term>, m: nat, b: seq<Term>, n: nat)
    requires Spells(a, m) && Spells(b, n)
    ensures Spells(a + b, m + n)
  {
    ReadingsJoin(Render(a), a, Render(b), b);
  }

  lemma SpelledMeaning(ts: seq<Term>, n: nat)
    requires Spells(ts, n)
    ensures Meaning(Render(ts)) == Some(n)
  {
    MeaningIsUnambiguous(Render(ts), ts);
  }

  lemma Breakdown(n: nat)
    ensures n == Seconds(n / 86_400, 'd') + Seconds(n % 86_400 / 3_600, 'h')
                 + Seconds(n % 86_400 % 3_600 / 60, 'm') + Seconds(n % 86_400 % 3_600 % 60, 's')
  {}

  /** The canonical rendering of any number of seconds in range reads back. */
  lemma CanonicalReadsBack(n: nat)
    requires n < U64
    ensures Meaning(Render(Canonical(n))) == Some(n)
  {
    var d, h, m, s := n / 86_400, n % 86_400 / 3_600, n % 86_400 % 3_600 / 60, n % 86_400 % 3_600 % 60;
    SpellOne(d, 'd');
    SpellOne(h, 'h');
    SpellBoth(TermIf(d, 'd'), Seconds(d, 'd'), TermIf(h, 'h'), Seconds(h, 'h'));
    SpellOne(m, 'm');
    SpellBoth(TermIf(d, 'd') + TermIf(h, 'h'), Seconds(d, 'd') + Seconds(h, 'h'), TermIf(m, 'm'), Seconds(m, 'm'));
    SpellOne(s, 's');
    SpellBoth(TermIf(d, 'd') + TermIf(h, 'h') + TermIf(m, 'm'),
              Seconds(d, 'd') + Seconds(h, 'h') + Seconds(m, 'm'), TermIf(s, 's'), Seconds(s, 's'));
    Breakdown(n);
    SpelledMeaning(Canonical(n), n);
  }

  /** What a right answer is, case by case. */
  lemma RightAnswersAre(s: string, checked: bool, r: Outcome)
    requires Right(s, checked, r)
    ensures Meaning(s).None? ==> !r.Parsed?
    ensures Meaning(s).Some? ==>
              var n := Meaning(s).value;
              && (n == 0 ==> r == Rejected(NotPositive))
              && (0 < n < 0x1_0000_0000_0000_0000 ==> r == Parsed(n))
              && (n >= 0x1_0000_0000_0000_0000 && checked ==> r == Overflow)
              && (n >= 0x1_0000_0000_0000_0000 && !checked ==>
                    r == if n % 0x1_0000_0000_0000_0000 == 0 then Rejected(NotPositive) else Parsed(n % 0x1_0000_0000_0000_0000))
  {
    hide Meaning;
  }

  // ── The units ───────────────────────────────────────────────────────────────

  /** One number with one unit is a duration for exactly four units. */
  lemma UnitsAre(digits: string, unit: char)
    requires AllDigits(digits) && !IsDigit(unit)
    ensures Meaning(digits + [unit]) ==
            if digits == "" || Value(digits) >= 0x1_0000_0000_0000_0000 then None
            else if unit == 's' then Some(Value(digits))
            else if unit == 'm' then Some(Value(digits) * 60)
            else if unit == 'h' then Some(Value(digits) * 60 * 60)
            else if unit == 'd' then Some(Value(digits) * 24 * 60 * 60)
            else None
  {
    OneTermMeaning(Term(digits, unit));
    UnitSeconds(Value(digits), unit);
    hide Meaning, Value, Seconds, IsUnit, AllDigits, IsDigit;
  }

  lemma UnitSeconds(n: nat, unit: char)
    ensures IsUnit(unit) <==> unit == 's' || unit == 'm' || unit == 'h' || unit == 'd'
    ensures Seconds(n, 's') == n && Seconds(n, 'm') == n * 60
    ensures Seconds(n, 'h') == n * 60 * 60 && Seconds(n, 'd') == n * 24 * 60 * 60
  {}

  lemma OneTermMeaning(t: Term)
    requires AllDigits(t.digits) && !IsDigit(t.unit)
    ensures Meaning(t.digits + [t.unit]) == if WellFormed(t) then Some(Seconds(Value(t.digits), t.unit)) else None
  {
    var s := t.digits + [t.unit];
    assert [t][1..] == [] && [t][..0] == [] && Render([]) == "" && Total([]) == 0;
    assert s + "" == s && Render([]) + t.digits + [t.unit] + "" == s;
    if WellFormed(t) {
      assert Render([t]) == s && Total([t]) == Seconds(Value(t.digits), t.unit);
      MeaningIsUnambiguous(s, [t]);
    } else {
      NoMeaning(s, [], t.digits, t.unit, "");
    }
  }
}

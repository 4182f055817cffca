/**
 Whitelist lifetimes as text: the parser and the two-unit printer.

 Lengths of time are whole nanoseconds, as in Go's time.Duration. The printer keeps
 at most the two most significant non-zero units, so every lifetime sent to frps is
 cut down; `Cut` says what is left of it.
 */
module Duration {

  const SECOND: int := 1_000_000_000
  const MINUTE: int := 60 * SECOND
  const HOUR: int := 3600 * SECOND
  const DAY: int := 86400 * SECOND

  datatype ParseError = EmptyText | InnerSpace | ExpectedNumber | BadNumber | MissingUnit | UnknownUnit

  datatype Parsed = Ok(length: int) | Err(error: ParseError)

  // ---------- Decimal numbers ----------

  predicate IsDigit(c: char) { '0' <= c <= '9' }

  predicate AllDigits(s: string) { forall i :: 0 <= i < |s| ==> IsDigit(s[i]) }

  function DigitOf(n: nat): char
    requires n < 10
  {
    ('0' as int + n) as char
  }

  function Digits(n: nat): (s: string)
    ensures |s| > 0 && AllDigits(s)
  {
    if n < 10 then [DigitOf(n)] else Digits(n / 10) + [DigitOf(n % 10)]
  }

  function Value(s: string): nat
    requires AllDigits(s)
  {
    if s == "" then 0
    else
      10 * Value(s[..|s| - 1]) + (s[|s| - 1] as int - '0' as int)
  }

  lemma {:induction false} ValueOfDigits(n: nat)
    ensures Value(Digits(n)) == n
  {
    if n >= 10 {
      ValueOfDigits(n / 10);
      assert Digits(n)[..|Digits(n)| - 1] == Digits(n / 10);
    } else {
      assert Digits(n)[..0] == "";
    }
  }

  /** v without its last k decimal digits. */
  function Shifted(v: nat, k: nat): nat {
    if k == 0 then v else Shifted(v / 10, k - 1)
  }

  /** Position of the first '.', or the length when there is none. */
  function DotAt(s: string): (k: nat)
    ensures k <= |s|
    ensures k < |s| ==> s[k] == '.'
    ensures forall i :: 0 <= i < k ==> s[i] != '.'
  {
    if s == "" || s[0] == '.' then 0 else 1 + DotAt(s[1..])
  }

  predicate NumberChar(c: char) { IsDigit(c) || c == '.' }

  predicate NumberText(s: string) { forall i :: 0 <= i < |s| ==> NumberChar(s[i]) }

  /** What strconv.ParseFloat accepts among texts of digits and dots: one dot at most, one digit at least. */
  predicate IsNumber(s: string)
    requires NumberText(s)
  {
    var k := DotAt(s);
    if k == |s| then s != "" else |s| > 1 && AllDigits(s[k + 1..])
  }

  predicate IsUnit(c: char) { c == 'd' || c == 'h' || c == 'm' || c == 's' }

  /** v units in nanoseconds; other characters are no units. */
  function Times(v: nat, unit: char): nat {
    match unit
    case 'd' => v * DAY
    case 'h' => v * HOUR
    case 'm' => v * MINUTE
    case 's' => v * SECOND
    case _ => 0
  }

  /** The product of a decimal number and a unit, cut to a whole nanosecond. */
  function Amount(s: string, unit: char): nat
    requires NumberText(s)
    requires IsNumber(s)
  {
    var k := DotAt(s);
    if k == |s| then Times(Value(s), unit)
    else
      Shifted(Times(Value(s[..k] + s[k + 1..]), unit), |s| - k - 1)
  }

  // ---------- Parsing ----------

  function NumberLength(s: string): (i: nat)
    ensures i <= |s|
    ensures NumberText(s[..i])
    ensures i < |s| ==> !NumberChar(s[i])
  {
    if s == "" || !NumberChar(s[0]) then 0
    else
      var i := 1 + NumberLength(s[1..]);
      assert s[..i] == [s[0]] + s[1..][..i - 1];
      i
  }

  /** The <number><unit> segments of a trimmed lower-case text, from the left. */
  function Segments(rest: string): Parsed
    decreases |rest|
  {
    if rest == "" then Ok(0)
    else
      var i := NumberLength(rest);
      if i == 0 then Err(ExpectedNumber)
      else if !IsNumber(rest[..i]) then Err(BadNumber)
      else if i == |rest| then Err(MissingUnit)
      else if !IsUnit(rest[i]) then Err(UnknownUnit)
      else
        Plus(Amount(rest[..i], rest[i]), Segments(rest[i + 1..]))
  }

  /** What a reading becomes when a length already read stands before it. */
  function Plus(length: int, r: Parsed): Parsed {
    match r
    case Ok(more) => Ok(length + more)
    case Err(e) => Err(e)
  }

  /** Unicode white space. */
  predicate IsSpace(c: char) {
    || c == ' ' || '\t' <= c <= '\r' || c == '\U{85}' || c == '\U{A0}' || c == '\U{1680}' || '\U{2000}' <= c <= '\U{200A}'
    || c == '\U{2028}' || c == '\U{2029}' || c == '\U{202F}' || c == '\U{205F}' || c == '\U{3000}'
  }

  function TrimLeft(s: string): string {
    if s != "" && IsSpace(s[0]) then TrimLeft(s[1..]) else s
  }

  function TrimRight(s: string): string {
    if s != "" && IsSpace(s[|s| - 1]) then TrimRight(s[..|s| - 1]) else s
  }

  function Lower(s: string): (t: string)
    ensures |t| == |s|
  {
    seq(|s|, i requires 0 <= i < |s| => if 'A' <= s[i] <= 'Z' then (s[i] as int + 32) as char else s[i])
  }

  function ParseText(s: string): Parsed {
    var t := Lower(TrimRight(TrimLeft(s)));
    if t == "" then Err(EmptyText)
    else if exists c <- t :: c == ' ' || c == '\t' || c == '\r' || c == '\n' then Err(InnerSpace)
    else Segments(t)
  }

  method Parse(s: string) returns (r: Parsed)
    ensures r == ParseText(s)
  {
    var t := Lower(TrimRight(TrimLeft(s)));
    if t == "" {
      return Err(EmptyText);
    }
    if exists c <- t :: c == ' ' || c == '\t' || c == '\r' || c == '\n' {
      return Err(InnerSpace);
    }
    r := ParseSegments(t);
  }

  /** The loop of `Parse`. */
  method ParseSegments(t: string) returns (r: Parsed)
    ensures r == Segments(t)
  {
    var total, rest := 0, t;
    while rest != ""
      invariant Segments(t) == Plus(total, Segments(rest))
      decreases |rest|
    {
      var segment, left := ParseSegment(rest);
      if segment.Err? {
        return segment;
      }
      total := total + segment.length;
      rest := left;
    }
    return Ok(total);
  }

  /** The body of the loop: one number and its unit. */
  method ParseSegment(rest: string) returns (segment: Parsed, left: string)
    requires rest != ""
    ensures segment.Ok? ==> |left| < |rest| && Segments(rest) == Plus(segment.length, Segments(left))
    ensures segment.Err? ==> Segments(rest) == segment
  {
    var i := ScanNumber(rest);
    if i == 0 {
      return Err(ExpectedNumber), rest;
    }
    if !IsNumber(rest[..i]) {
      return Err(BadNumber), rest;
    }
    if i == |rest| {
      return Err(MissingUnit), rest;
    }
    if !IsUnit(rest[i]) {
      return Err(UnknownUnit), rest;
    }
    return Ok(Amount(rest[..i], rest[i])), rest[i + 1..];
  }

  method ScanNumber(rest: string) returns (i: nat)
    ensures i == NumberLength(rest)
  {
    i := 0;
    while i < |rest| && NumberChar(rest[i])
      invariant i <= |rest|
      invariant NumberLength(rest) == i + NumberLength(rest[i..])
    {
      assert rest[i..][1..] == rest[i + 1..];
      i := i + 1;
    }
  }

  /** A text of segments followed by another reads as the sum, or fails as the second one does. */
  lemma {:induction false} ParseIsAdditive(a: string, b: string)
    requires Segments(a).Ok?
    ensures Segments(a + b) == Plus(Segments(a).length, Segments(b))
    decreases |a|
  {
    if a == "" {
      assert a + b == b;
    } else {
      var i := NumberLength(a);
      NumberLengthOfPrefix(a, b);
      assert (a + b)[..i] == a[..i] && (a + b)[i] == a[i];
      assert (a + b)[i + 1..] == a[i + 1..] + b;
      ParseIsAdditive(a[i + 1..], b);
    }
  }

  lemma {:induction false} NumberLengthOfPrefix(a: string, b: string)
    requires NumberLength(a) < |a|
    ensures NumberLength(a + b) == NumberLength(a)
  {
    assert (a + b)[0] == a[0];
    if NumberChar(a[0]) {
      assert (a + b)[1..] == a[1..] + b;
      NumberLengthOfPrefix(a[1..], b);
    }
  }

  /** A number and its unit. */
  datatype Piece = Piece(number: string, unit: char) {
    predicate Valid() { NumberText(number) && IsNumber(number) && IsUnit(unit) }

    function Text(): string { number + [unit] }

    function Length(): int
      requires Valid()
    {
      Amount(number, unit)
    }
  }

  predicate AllValid(ps: seq<Piece>) { forall p <- ps :: p.Valid() }

  function TextOf(ps: seq<Piece>): string {
    if ps == [] then "" else ps[0].Text() + TextOf(ps[1..])
  }

  function SumOf(ps: seq<Piece>): int
    requires AllValid(ps)
  {
    if ps == [] then 0 else ps[0].Length() + SumOf(ps[1..])
  }

  lemma {:induction false} PiecesRead(ps: seq<Piece>)
    requires AllValid(ps)
    ensures Segments(TextOf(ps)) == Ok(SumOf(ps))
  {
    if ps != [] {
      PiecesRead(ps[1..]);
      PieceReads(ps[0], TextOf(ps[1..]));
    }
  }

  lemma FirstPiece(s: string) returns (p: Piece, rest: string)
    requires s != "" && Segments(s).Ok?
    ensures p.Valid() && s == p.Text() + rest && |rest| < |s| && Segments(rest).Ok?
  {
    var i := NumberLength(s);
    p, rest := Piece(s[..i], s[i]), s[i + 1..];
    assert s == s[..i] + [s[i]] + s[i + 1..];
  }

  lemma FrontPiece(p: Piece, ps: seq<Piece>)
    requires p.Valid() && AllValid(ps)
    ensures AllValid([p] + ps) && TextOf([p] + ps) == p.Text() + TextOf(ps)
  {
    assert ([p] + ps)[1..] == ps;
  }

  lemma {:induction false} PiecesOf(s: string) returns (ps: seq<Piece>)
    requires Segments(s).Ok?
    ensures AllValid(ps) && TextOf(ps) == s
    decreases |s|
  {
    if s == "" {
      ps := [];
    } else {
      var p, rest := FirstPiece(s);
      ps := PiecesOf(rest);
      FrontPiece(p, ps);
      ps := [p] + ps;
    }
  }

  /** What is read are exactly the texts of numbers with units, and their value is the sum. */
  lemma ReadsExactly(s: string, v: int)
    ensures Segments(s) == Ok(v) <==> exists ps :: AllValid(ps) && TextOf(ps) == s && SumOf(ps) == v
  {
    if Segments(s) == Ok(v) {
      var ps := PiecesOf(s);
      PiecesRead(ps);
      assert AllValid(ps) && TextOf(ps) == s && SumOf(ps) == v;
    }
    if ps :| AllValid(ps) && TextOf(ps) == s && SumOf(ps) == v {
      PiecesRead(ps);
    }
  }

  // ---------- What numbers, units and refusals are ----------

  lemma ValueSnoc(s: string, c: char)
    requires AllDigits(s) && IsDigit(c)
    ensures Value(s + [c]) == 10 * Value(s) + (c as int - '0' as int)
  {
    assert (s + [c])[..|s|] == s;
  }

  /** One more digit at the end of the digits of a positive number. */
  lemma DigitsSnoc(v: nat, c: char)
    requires v > 0 && IsDigit(c)
    ensures Digits(10 * v + (c as int - '0' as int)) == Digits(v) + [c]
  {
    var n := 10 * v + (c as int - '0' as int);
    assert n / 10 == v && n % 10 == c as int - '0' as int;
    assert DigitOf(n % 10) == c;
  }

  lemma {:induction false} DigitsAreCanonical(s: string)
    requires s != "" && AllDigits(s) && (s[0] == '0' ==> s == "0")
    ensures Digits(Value(s)) == s && (Value(s) == 0 <==> s == "0")
  {
    var front, c := s[..|s| - 1], s[|s| - 1];
    assert s == front + [c];
    ValueSnoc(front, c);
    if front == "" {
      assert Digits(Value(s)) == [c];
    } else {
      DigitsAreCanonical(front);
      DigitsSnoc(Value(front), c);
    }
  }

  lemma {:induction false} NoLeadingZero(n: nat)
    ensures n > 0 ==> Digits(n)[0] != '0'
  {
    if n >= 10 {
      NoLeadingZero(n / 10);
    }
  }

  function Power10(k: nat): nat {
    if k == 0 then 1 else 10 * Power10(k - 1)
  }

  lemma {:induction false} ShiftedIs(v: nat, k: nat)
    ensures Shifted(v, k) * Power10(k) <= v < (Shifted(v, k) + 1) * Power10(k)
  {
    if k > 0 {
      ShiftedIs(v / 10, k - 1);
      Scale(Shifted(v, k), Power10(k - 1));
      Scale(Shifted(v, k) + 1, Power10(k - 1));
    }
  }

  lemma Scale(a: nat, b: nat)
    ensures a * (10 * b) == 10 * (a * b)
  {
  }

  /** A number of whole units. */
  lemma WholeAmount(n: nat)
    ensures IsNumber(Digits(n))
    ensures Amount(Digits(n), 's') == n * 1_000_000_000 && Amount(Digits(n), 'm') == n * 60_000_000_000
    ensures Amount(Digits(n), 'h') == n * 3_600_000_000_000 && Amount(Digits(n), 'd') == n * 86_400_000_000_000
  {
    DigitsAreANumber(n, 's');
    DigitsAreANumber(n, 'm');
    DigitsAreANumber(n, 'h');
    DigitsAreANumber(n, 'd');
  }

  /** A number with a fraction: its digits as a whole number, divided by the power of ten of the digits after the dot. */
  lemma FractionAmount(a: string, b: string, unit: char)
    requires AllDigits(a) && AllDigits(b) && a + b != "" && IsUnit(unit)
    ensures var s := a + "." + b;
            && NumberText(s) && IsNumber(s)
            && Amount(s, unit) * Power10(|b|) <= Value(a + b) * Amount("1", unit) < (Amount(s, unit) + 1) * Power10(|b|)
  {
    var s := a + "." + b;
    assert s[|a|] == '.';
    assert DotAt(s) == |a|;
    assert s[..|a|] == a && s[|a| + 1..] == b;
    ShiftedIs(Times(Value(a + b), unit), |b|);
    DigitsAreANumber(1, unit);
    assert Digits(1) == "1";
    TimesIsLinear(Value(a + b), unit);
  }

  lemma TimesIsLinear(v: nat, unit: char)
    ensures Times(v, unit) == v * Times(1, unit)
  {
  }

  /** Numbers have a digit, and one dot at most. */
  lemma IsNumberExactly(s: string)
    requires NumberText(s)
    ensures IsNumber(s) <==> (exists c <- s :: '0' <= c <= '9') && forall i, j :: 0 <= i < j < |s| ==> s[i] != '.' || s[j] != '.'
  {
    var k := DotAt(s);
    if k < |s| {
      assert forall j :: k < j < |s| ==> s[j] == s[k + 1..][j - k - 1];
      if |s| > 1 && AllDigits(s[k + 1..]) {
        var other := if k > 0 then s[0] else s[1];
        assert IsDigit(other) && other in s;
      } else if |s| > 1 {
        var j :| 0 <= j < |s[k + 1..]| && !IsDigit(s[k + 1..][j]);
        assert s[k] == '.' && s[k + 1 + j] == '.';
      }
    } else if s != "" {
      assert IsDigit(s[0]) && s[0] in s;
    }
  }

  /** Why a text without an accepted reading is refused. */
  ghost predicate Refuses(number: string, tail: string, e: ParseError) {
    && NumberText(number) && (tail != "" ==> !NumberChar(tail[0]))
    && match e
       case ExpectedNumber => number == "" && tail != ""
       case BadNumber => number != "" && !IsNumber(number)
       case MissingUnit => IsNumber(number) && tail == ""
       case UnknownUnit => IsNumber(number) && tail != "" && tail[0] !in {'d', 'h', 'm', 's'}
       case _ => false
  }

  lemma NumberEnds(number: string, tail: string)
    requires NumberText(number) && (tail != "" ==> !NumberChar(tail[0]))
    ensures NumberLength(number + tail) == |number| && (number + tail)[..|number|] == number
  {
    if tail == "" {
      assert number + tail == number;
      NumberLengthOfAll(number);
    } else {
      NumberLengthOfNumber(number, tail);
    }
  }

  lemma {:induction false} NumberLengthOfAll(s: string)
    requires NumberText(s)
    ensures NumberLength(s) == |s|
  {
    if s != "" {
      NumberLengthOfAll(s[1..]);
    }
  }

  lemma TailRefused(number: string, tail: string, e: ParseError)
    requires Refuses(number, tail, e)
    ensures Segments(number + tail) == Err(e)
  {
    NumberEnds(number, tail);
    if tail != "" {
      assert (number + tail)[|number|] == tail[0];
    }
  }

  lemma RefusalReads(ps: seq<Piece>, number: string, tail: string, e: ParseError)
    requires AllValid(ps) && Refuses(number, tail, e)
    ensures Segments(TextOf(ps) + number + tail) == Err(e)
  {
    TailRefused(number, tail, e);
    PiecesRead(ps);
    RefusedAfter(TextOf(ps), SumOf(ps), number + tail, e);
    Regroup(TextOf(ps), number, tail);
  }

  lemma RefusedAfter(a: string, v: int, b: string, e: ParseError)
    requires Segments(a) == Ok(v) && Segments(b) == Err(e)
    ensures Segments(a + b) == Err(e)
  {
    ParseIsAdditive(a, b);
  }

  /** A text is refused for a reason exactly when what follows some accepted pieces gives this reason. */
  lemma RefusesExactly(s: string, e: ParseError)
    ensures Segments(s) == Err(e) <==>
            exists ps, number, tail :: AllValid(ps) && s == TextOf(ps) + number + tail && Refuses(number, tail, e)
  {
    if Segments(s) == Err(e) {
      var ps, number, tail := RefusedAt(s, e);
    } else if ps, number, tail :| AllValid(ps) && s == TextOf(ps) + number + tail && Refuses(number, tail, e) {
      RefusalReads(ps, number, tail, e);
      assert false;
    }
  }

  predicate Stops(s: string) {
    var i := NumberLength(s);
    i == 0 || !IsNumber(s[..i]) || i == |s| || !IsUnit(s[i])
  }

  lemma RefusedHere(s: string, e: ParseError)
    requires Segments(s) == Err(e) && Stops(s)
    ensures var i := NumberLength(s); Refuses(s[..i], s[i..], e)
  {
    var i := NumberLength(s);
    assert i < |s| ==> s[i..][0] == s[i];
  }

  lemma RefusedLater(s: string, e: ParseError) returns (p: Piece, rest: string)
    requires Segments(s) == Err(e) && !Stops(s)
    ensures p.Valid() && s == p.Text() + rest && |rest| < |s| && Segments(rest) == Err(e)
  {
    var i := NumberLength(s);
    p, rest := Piece(s[..i], s[i]), s[i + 1..];
  }

  lemma PieceInFront(p: Piece, ps: seq<Piece>, number: string, tail: string)
    requires p.Valid() && AllValid(ps)
    ensures AllValid([p] + ps) && p.Text() + (TextOf(ps) + number + tail) == TextOf([p] + ps) + number + tail
  {
    FrontPiece(p, ps);
    Regroup(p.Text(), TextOf(ps), number);
    Regroup(p.Text(), TextOf(ps) + number, tail);
  }

  lemma {:induction false} RefusedAt(s: string, e: ParseError) returns (ps: seq<Piece>, number: string, tail: string)
    requires Segments(s) == Err(e)
    ensures AllValid(ps) && s == TextOf(ps) + number + tail && Refuses(number, tail, e)
    decreases |s|
  {
    if Stops(s) {
      RefusedHere(s, e);
      ps, number, tail := [], s[..NumberLength(s)], s[NumberLength(s)..];
    } else {
      var p, rest := RefusedLater(s, e);
      ps, number, tail := RefusedAt(rest, e);
      PieceInFront(p, ps, number, tail);
      ps := [p] + ps;
    }
  }

  // ---------- What is done to a text first ----------

  predicate AllSpaces(s: string) { forall i :: 0 <= i < |s| ==> IsSpace(s[i]) }

  lemma {:induction false} TrimmedLeft(pad: string, s: string)
    requires AllSpaces(pad)
    ensures TrimLeft(pad + s) == TrimLeft(s)
  {
    if pad == "" {
      assert pad + s == s;
    } else {
      assert (pad + s)[1..] == pad[1..] + s;
      TrimmedLeft(pad[1..], s);
    }
  }

  lemma {:induction false} TrimmedRight(s: string, pad: string)
    requires AllSpaces(pad)
    ensures TrimRight(s + pad) == TrimRight(s)
  {
    if pad == "" {
      assert s + pad == s;
    } else {
      assert (s + pad)[..|s + pad| - 1] == s + pad[..|pad| - 1];
      TrimmedRight(s, pad[..|pad| - 1]);
    }
  }

  /** A text that neither starts nor ends with a space. */
  predicate IsTrimmed(s: string) { s != "" ==> !IsSpace(s[0]) && !IsSpace(s[|s| - 1]) }

  /** What is read is the lower-case text between the spaces; no white space may be left inside. */
  lemma ParseIsOfCore(left: string, s: string, right: string)
    requires AllSpaces(left) && AllSpaces(right) && IsTrimmed(s)
    ensures ParseText(left + s + right) ==
            if s == "" then Err(EmptyText)
            else if ' ' in s || '\t' in s || '\r' in s || '\n' in s then Err(InnerSpace)
            else Segments(Lower(s))
  {
    CoreIs(left, s, right);
    LowerIs(s);
  }

  lemma CoreIs(left: string, s: string, right: string)
    requires AllSpaces(left) && AllSpaces(right) && IsTrimmed(s)
    ensures TrimRight(TrimLeft(left + s + right)) == s
  {
    assert left + s + right == left + (s + right);
    TrimmedLeft(left, s + right);
    if s == "" {
      assert s + right == right == right + "";
      TrimmedLeft(right, "");
    } else {
      assert (s + right)[0] == s[0];
      TrimmedRight(s, right);
    }
  }

  lemma LowerIs(s: string)
    ensures forall i :: 0 <= i < |s| ==> Lower(s)[i] == if 'A' <= s[i] <= 'Z' then s[i] - 'A' + 'a' else s[i]
    ensures forall c <- {' ', '\t', '\r', '\n'} :: c in s <==> c in Lower(s)
  {
    forall c | c in {' ', '\t', '\r', '\n'}
      ensures c in s <==> c in Lower(s)
    {
      if c in s {
        var i :| 0 <= i < |s| && s[i] == c;
        assert Lower(s)[i] == c;
      }
    }
  }

  // ---------- Printing ----------

  datatype Unit = Days | Hours | Minutes | Seconds {
    function Name(): char {
      match this case Days => 'd' case Hours => 'h' case Minutes => 'm' case Seconds => 's'
    }

    /** How often the unit goes into d. */
    function Count(d: nat): nat {
      match this case Days => d / DAY case Hours => d / HOUR case Minutes => d / MINUTE case Seconds => d / SECOND
    }

    /** What is left of d then. */
    function Rest(d: nat): nat {
      match this case Days => d % DAY case Hours => d % HOUR case Minutes => d % MINUTE case Seconds => d % SECOND
    }

    /** The same of a whole number of seconds. */
    function CountOf(s: nat): nat {
      match this case Days => s / 86400 case Hours => s / 3600 case Minutes => s / 60 case Seconds => s
    }

    function RestOf(s: nat): nat {
      match this case Days => s % 86400 case Hours => s % 3600 case Minutes => s % 60 case Seconds => 0
    }
  }

  const UNITS: seq<Unit> := [Days, Hours, Minutes, Seconds]

  function Printed(u: Unit, d: nat): string {
    Digits(u.Count(d)) + [u.Name()]
  }

  /** Up to `room` of the units of d that are not zero, in the order given. */
  function Render(d: nat, units: seq<Unit>, room: nat): string {
    if units == [] || room == 0 then ""
    else if units[0].Count(d) > 0 then
      Printed(units[0], d) + Render(units[0].Rest(d), units[1..], room - 1)
    else Render(d, units[1..], room)
  }

  function FormatText(d: int): string {
    if d <= 0 then "0s"
    else
      var s := Render(d, UNITS, 2);
      if s == "" then "0s" else s
  }

  function Join(parts: seq<string>): string {
    if parts == [] then "" else Join(parts[..|parts| - 1]) + parts[|parts| - 1]
  }

  method Format(d: int) returns (s: string)
    ensures s == FormatText(d)
  {
    if d <= 0 {
      return "0s";
    }
    var out := Segment(d, UNITS);
    if |out| == 0 {
      return "0s";
    }
    return Join(out);
  }

  /** The loop of `Format`, over any list of units. */
  method Segment(d: nat, units: seq<Unit>) returns (out: seq<string>)
    ensures Join(out) == Render(d, units, 2)
    ensures out == [] <==> Join(out) == ""
  {
    ghost var text := Render(d, units, 2);
    var left: nat := d;
    out := [];
    var k := 0;
    while k < |units|
      invariant k <= |units| && |out| < 2
      invariant text == Join(out) + Render(left, units[k..], 2 - |out|)
      invariant out == [] <==> Join(out) == ""
    {
      SegmentStep(text, out, left, units, k);
      if units[k].Count(left) > 0 {
        JoinSnoc(out, Printed(units[k], left));
        out := out + [Printed(units[k], left)];
        left := units[k].Rest(left);
      }
      if |out| == 2 {
        return;
      }
      k := k + 1;
    }
  }

  /** What one unit adds to the text. */
  lemma RenderStep(d: nat, units: seq<Unit>, k: nat, room: nat)
    requires k < |units| && room > 0
    ensures Render(d, units[k..], room) ==
            if units[k].Count(d) > 0 then Printed(units[k], d) + Render(units[k].Rest(d), units[k + 1..], room - 1)
            else Render(d, units[k + 1..], room)
  {
    assert units[k..][0] == units[k] && units[k..][1..] == units[k + 1..];
  }

  lemma SegmentStep(text: string, out: seq<string>, left: nat, units: seq<Unit>, k: nat)
    requires k < |units| && |out| < 2 && text == Join(out) + Render(left, units[k..], 2 - |out|)
    ensures var u := units[k];
            text == if u.Count(left) > 0 then
                      Join(out + [Printed(u, left)]) + Render(u.Rest(left), units[k + 1..], 1 - |out|)
                    else Join(out) + Render(left, units[k + 1..], 2 - |out|)
  {
    RenderStep(left, units, k, 2 - |out|);
    if units[k].Count(left) > 0 {
      JoinSnoc(out, Printed(units[k], left));
      Regroup(Join(out), Printed(units[k], left), Render(units[k].Rest(left), units[k + 1..], 1 - |out|));
    }
  }

  lemma Regroup(a: string, b: string, c: string)
    ensures a + (b + c) == (a + b) + c
  {
  }

  lemma JoinSnoc(parts: seq<string>, last: string)
    ensures Join(parts + [last]) == Join(parts) + last
  {
    assert (parts + [last])[..|parts|] == parts;
  }

  // ---------- What is printed ----------

  /** A count with its unit, nothing for none. */
  function Counted(n: nat, unit: char): string {
    if n == 0 then "" else Digits(n) + [unit]
  }

  lemma RenderSeconds(d: nat, room: nat)
    ensures Render(d, [Seconds], room) == if room == 0 then "" else Counted(d / 1_000_000_000, 's')
  {
    if room > 0 {
      RenderStep(d, [Seconds], 0, room);
      assert [Seconds][0..] == [Seconds] && [Seconds][1..] == [];
    }
  }

  lemma RenderMinutes(d: nat, room: nat)
    requires room > 0
    ensures var s := d / 1_000_000_000;
            Render(d, [Minutes, Seconds], room) ==
            if s / 60 > 0 then Counted(s / 60, 'm') + if room == 1 then "" else Counted(s % 60, 's') else Counted(s, 's')
  {
    var us := [Minutes, Seconds];
    RenderStep(d, us, 0, room);
    CountScales(Minutes, d);
    assert us[0..] == us && us[1..] == [Seconds];
    RenderSeconds(d, room);
    RenderSeconds(Minutes.Rest(d), room - 1);
  }

  lemma RenderHours(d: nat, room: nat)
    requires 0 < room <= 2
    ensures var s := d / 1_000_000_000;
            Render(d, [Hours, Minutes, Seconds], room) ==
            if s / 3600 > 0 then Counted(s / 3600, 'h') + if room == 1 then "" else OneUnit(s % 3600)
            else if s / 60 > 0 then Counted(s / 60, 'm') + if room == 1 then "" else Counted(s % 60, 's')
            else Counted(s, 's')
  {
    var us := [Hours, Minutes, Seconds];
    RenderStep(d, us, 0, room);
    CountScales(Hours, d);
    assert us[0..] == us && us[1..] == [Minutes, Seconds];
    RenderMinutes(d, room);
    if room == 2 {
      RenderMinutes(Hours.Rest(d), 1);
    }
  }

  /** The largest unit that goes into s seconds, less than a day; nothing for none. */
  function OneUnit(s: nat): string {
    if s / 3600 > 0 then Counted(s / 3600, 'h') else if s / 60 > 0 then Counted(s / 60, 'm') else Counted(s, 's')
  }

  /** Printed are the largest unit that goes into the length and the largest that goes into what is left then. */
  lemma FormatIs(d: int)
    ensures d < 1_000_000_000 ==> FormatText(d) == "0s"
    ensures d >= 1_000_000_000 ==>
              var s := d / 1_000_000_000;
              FormatText(d) ==
              if s >= 86400 then Counted(s / 86400, 'd') + OneUnit(s % 86400)
              else if s >= 3600 then Counted(s / 3600, 'h') + OneUnit(s % 3600)
              else if s >= 60 then Counted(s / 60, 'm') + OneUnit(s % 60)
              else Counted(s, 's')
  {
    if d > 0 {
      RenderStep(d, UNITS, 0, 2);
      CountScales(Days, d);
      assert UNITS[0..] == UNITS && UNITS[1..] == [Hours, Minutes, Seconds];
      RenderHours(d, 2);
      RenderHours(Days.Rest(d), 1);
    }
  }

  // ---------- What the printer keeps ----------

  /** The part of a whole number of seconds that `Render` shows. */
  function Shown(s: nat, units: seq<Unit>, room: nat): nat {
    if units == [] || room == 0 then 0
    else if units[0].CountOf(s) > 0 then
      s - units[0].RestOf(s) + Shown(units[0].RestOf(s), units[1..], room - 1)
    else Shown(s, units[1..], room)
  }

  /** A whole number of seconds as days, hours, minutes and seconds. */
  datatype Parts = Parts(days: nat, hours: nat, minutes: nat, seconds: nat) {
    predicate Valid() { hours < 24 && minutes < 60 && seconds < 60 }

    function Total(): nat { 86400 * days + 3600 * hours + 60 * minutes + seconds }

    function NonZero(): nat {
      (if days > 0 then 1 else 0) + (if hours > 0 then 1 else 0)
      + (if minutes > 0 then 1 else 0) + (if seconds > 0 then 1 else 0)
    }

    /** Everything after the two leading non-zero units dropped. */
    function Leading(): (p: Parts)
      requires Valid()
      ensures p.Valid() && p.Total() <= Total() && p.NonZero() <= 2
    {
      if days > 0 && hours > 0 then Parts(days, hours, 0, 0)
      else if (days > 0 || hours > 0) && minutes > 0 then Parts(days, hours, minutes, 0)
      else this
    }
  }

  function Split(s: nat): (p: Parts)
    ensures p.Valid() && p.Total() == s
  {
    var h := s % 86400;
    var m := h % 3600;
    Parts(s / 86400, h / 3600, m / 60, m % 60)
  }

  /** A whole number of seconds cut to its two leading non-zero units. */
  function Cut(s: nat): nat {
    Split(s).Leading().Total()
  }

  lemma SplitIsUnique(p: Parts, q: Parts)
    requires p.Valid() && q.Valid() && p.Total() == q.Total()
    ensures p == q
  {
    assert p.days == q.days;
    assert p.hours == q.hours;
  }

  lemma LeadingIsGreatest(p: Parts, q: Parts)
    requires p.Valid() && q.Valid() && q.Total() <= p.Total() && q.NonZero() <= 2
    ensures q.Total() <= p.Leading().Total()
  {
    if q.days == p.days && q.hours == p.hours && q.minutes == p.minutes {
    } else if q.days == p.days && q.hours == p.hours {
      assert q.minutes < p.minutes;
    } else if q.days == p.days {
      assert q.hours < p.hours;
    } else {
      assert q.days < p.days;
    }
  }

  /** The cut is the greatest length up to s that two units can show. */
  lemma CutIsGreatest(s: nat, v: nat)
    ensures Cut(s) <= s && Split(Cut(s)).NonZero() <= 2
    ensures v <= s && Split(v).NonZero() <= 2 ==> v <= Cut(s)
  {
    SplitIsUnique(Split(Cut(s)), Split(s).Leading());
    if v <= s && Split(v).NonZero() <= 2 {
      LeadingIsGreatest(Split(s), Split(v));
    }
  }

  // ---------- Reading back what was printed ----------

  lemma {:induction false} NumberLengthOfNumber(s: string, rest: string)
    requires NumberText(s)
    requires rest != "" && !NumberChar(rest[0])
    ensures NumberLength(s + rest) == |s|
  {
    if s == "" {
      assert s + rest == rest;
    } else {
      assert (s + rest)[1..] == s[1..] + rest;
      NumberLengthOfNumber(s[1..], rest);
    }
  }

  lemma PieceReads(p: Piece, rest: string)
    requires p.Valid()
    ensures Segments(p.Text() + rest) == Plus(p.Length(), Segments(rest))
  {
    var s := p.Text() + rest;
    var i := |p.number|;
    assert s == p.number + ([p.unit] + rest);
    NumberLengthOfNumber(p.number, [p.unit] + rest);
    assert s[..i] == p.number && s[i] == p.unit && s[i + 1..] == rest;
  }

  lemma SegmentReads(v: nat, u: char, rest: string)
    requires IsUnit(u)
    ensures Segments(Digits(v) + [u] + rest) == Plus(Times(v, u), Segments(rest))
  {
    DigitsAreANumber(v, u);
    PieceReads(Piece(Digits(v), u), rest);
  }

  lemma DigitsAreANumber(v: nat, unit: char)
    ensures IsNumber(Digits(v)) && Amount(Digits(v), unit) == Times(v, unit)
  {
    assert DotAt(Digits(v)) == |Digits(v)|;
    ValueOfDigits(v);
  }

  /** Counting nanoseconds is counting whole seconds. */
  lemma CountScales(u: Unit, d: nat)
    ensures u.Count(d) == u.CountOf(d / SECOND) && u.Rest(d) / SECOND == u.RestOf(d / SECOND)
  {
  }

  /** What one printed unit is worth when read. */
  lemma PieceIsWorth(u: Unit, s: nat)
    ensures IsUnit(u.Name()) && u.RestOf(s) <= s
    ensures Times(u.CountOf(s), u.Name()) == (s - u.RestOf(s)) * SECOND
  {
  }

  lemma FrontReads(u: Unit, s: nat, rest: string, shown: nat)
    requires Segments(rest) == Ok(shown * SECOND)
    ensures u.RestOf(s) <= s
    ensures Segments(Digits(u.CountOf(s)) + [u.Name()] + rest) == Ok((s - u.RestOf(s) + shown) * SECOND)
  {
    PieceIsWorth(u, s);
    SegmentReads(u.CountOf(s), u.Name(), rest);
  }

  lemma {:induction false} RenderReads(d: nat, units: seq<Unit>, room: nat)
    ensures Segments(Render(d, units, room)) == Ok(Shown(d / SECOND, units, room) * SECOND)
  {
    if units != [] && room > 0 {
      var u, s := units[0], d / SECOND;
      CountScales(u, d);
      if u.Count(d) > 0 {
        RenderReads(u.Rest(d), units[1..], room - 1);
        FrontReads(u, s, Render(u.Rest(d), units[1..], room - 1), Shown(u.RestOf(s), units[1..], room - 1));
      } else {
        RenderReads(d, units[1..], room);
      }
    }
  }

  lemma ShownFront(s: nat, u: Unit, units: seq<Unit>, room: nat)
    requires room > 0
    ensures Shown(s, [u] + units, room) ==
            if u.CountOf(s) > 0 then s - u.RestOf(s) + Shown(u.RestOf(s), units, room - 1) else Shown(s, units, room)
  {
    assert ([u] + units)[1..] == units;
  }

  lemma ShownSeconds(s: nat, room: nat)
    ensures Shown(s, [Seconds], room) == if room > 0 then s else 0
  {
    if room > 0 {
      ShownFront(s, Seconds, [], room);
      assert [Seconds] + [] == [Seconds];
    }
  }

  lemma ShownMinutes(s: nat, room: nat)
    requires room > 0
    ensures Shown(s, [Minutes, Seconds], room) == if s / 60 > 0 && room == 1 then s - s % 60 else s
  {
    ShownFront(s, Minutes, [Seconds], room);
    assert [Minutes] + [Seconds] == [Minutes, Seconds];
    ShownSeconds(s % 60, room - 1);
    ShownSeconds(s, room);
  }

  lemma ShownHours(s: nat, room: nat)
    requires 0 < room <= 2
    ensures Shown(s, [Hours, Minutes, Seconds], room) ==
            if s / 3600 == 0 then s - (if s / 60 > 0 && room == 1 then s % 60 else 0)
            else if room == 1 then s - s % 3600
            else s - if s % 3600 / 60 > 0 then s % 3600 % 60 else 0
  {
    ShownFront(s, Hours, [Minutes, Seconds], room);
    assert [Hours] + [Minutes, Seconds] == [Hours, Minutes, Seconds];
    ShownMinutes(s, room);
    if room == 2 {
      ShownMinutes(s % 3600, 1);
    }
  }

  lemma ShownIsCut(s: nat)
    ensures Shown(s, UNITS, 2) == Cut(s)
  {
    ShownFront(s, Days, [Hours, Minutes, Seconds], 2);
    assert [Days] + [Hours, Minutes, Seconds] == UNITS;
    ShownHours(s % 86400, 1);
    ShownHours(s, 2);
  }

  /** Texts that trimming and lower-casing leave alone, without inner spaces. */
  predicate Plain(s: string) {
    forall i :: 0 <= i < |s| ==> IsDigit(s[i]) || 'a' <= s[i] <= 'z'
  }

  lemma PlainIsParsedAsIs(s: string)
    requires Plain(s) && s != ""
    ensures ParseText(s) == Segments(s)
  {
    assert Lower(s) == s;
  }

  lemma {:induction false} RenderIsPlain(d: nat, units: seq<Unit>, room: nat)
    ensures Plain(Render(d, units, room))
  {
    if units != [] && room > 0 {
      RenderIsPlain(units[0].Rest(d), units[1..], room - 1);
      RenderIsPlain(d, units[1..], room);
    }
  }

  /** Parsing what was printed gives the printed length: whole seconds, cut to two units. */
  lemma ParseOfFormat(d: int)
    ensures ParseText(FormatText(d)) == Ok(if d <= 0 then 0 else Cut(d / SECOND) * SECOND)
  {
    ZeroReads();
    if d > 0 {
      RenderReads(d, UNITS, 2);
      RenderIsPlain(d, UNITS, 2);
      ShownIsCut(d / SECOND);
      if Render(d, UNITS, 2) != "" {
        PlainIsParsedAsIs(Render(d, UNITS, 2));
      }
    }
  }

  lemma ZeroReads()
    ensures ParseText("0s") == Ok(0)
  {
    var s := Digits(0) + ['s'] + "";
    assert s == "0s";
    SegmentReads(0, 's', "");
    PlainIsParsedAsIs(s);
  }

  // ---------- Consequences for lifetimes sent to frps ----------

  /** The cut changes nothing exactly on the lengths two units can show. */
  lemma CutIsExact(s: nat)
    ensures Cut(s) == s <==> Split(s).NonZero() <= 2
    ensures s < 3600 ==> Cut(s) == s
    ensures Cut(Cut(s)) == Cut(s)
  {
    CutIsGreatest(s, s);
    CutIsGreatest(Cut(s), Cut(s));
  }

  lemma CutIsMonotone(s: nat, t: nat)
    requires s <= t
    ensures Cut(s) <= Cut(t)
  {
    CutIsGreatest(s, s);
    CutIsGreatest(t, Cut(s));
  }

  /** Less than a twenty-sixth is lost, and nothing at all below 3661 seconds. */
  lemma CutLoss(s: nat)
    requires s > 0
    ensures 25 * s < 26 * Cut(s)
    ensures Cut(s) == s || Cut(s) >= 3660
    ensures Cut(s) > 0
  {
  }

  lemma CutBounds(s: nat)
    ensures s > 0 ==> 0 < Cut(s) <= s && (Cut(s) == s || Cut(s) >= 3660)
  {
    if s > 0 {
      CutLoss(s);
      CutIsGreatest(s, 0);
    }
  }
}

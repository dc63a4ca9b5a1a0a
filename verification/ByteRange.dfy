/** Serving one byte range of a protected file: the header parser, the chunk loop and the response. */
module ByteRange {
  import opened Numbers
  import opened Text
  import opened Wrappers

  const PREFIX := "bytes="
  const CHUNK_SIZE: nat := 64 * 1024
  const MAX_DIGITS: nat := 4300

  /** First and last byte position, both inclusive. */
  datatype Range = Range(start: nat, end: nat)
  datatype RangeError = BadRange

  // ---- Python's int() on ASCII text ----

  predicate IsDigit(c: char) {
    '0' <= c <= '9'
  }

  predicate AllDigits(s: string) {
    s != "" && forall i :: 0 <= i < |s| ==> IsDigit(s[i])
  }

  /** Digits, possibly grouped by single underscores. */
  predicate IsNumeral(s: string) {
    && s != "" && IsDigit(s[0]) && IsDigit(s[|s| - 1])
    && (forall i :: 0 <= i < |s| ==> IsDigit(s[i]) || s[i] == '_')
    && (forall i :: 0 < i < |s| && s[i] == '_' ==> s[i - 1] != '_')
  }

  function DigitCount(s: string): nat {
    if s == "" then 0 else DigitCount(s[..|s| - 1]) + if IsDigit(s[|s| - 1]) then 1 else 0
  }

  function Value(s: string): nat {
    if s == "" then 0
    else
      var c := s[|s| - 1];
      if IsDigit(c) then 10 * Value(s[..|s| - 1]) + (c as int - '0' as int) else Value(s[..|s| - 1])
  }

  function PyInt(text: string): Option<int> {
    var t := Strip(text, IsAsciiSpace);
    var signed := t != "" && (t[0] == '-' || t[0] == '+');
    var numeral := if signed then t[1..] else t;
    if !IsNumeral(numeral) || DigitCount(numeral) > MAX_DIGITS then None
    else
      var magnitude: int := Value(numeral);
      Some(if signed && t[0] == '-' then -magnitude else magnitude)
  }

  lemma {:induction false} PlainDigitsAreCounted(s: string)
    requires forall i :: 0 <= i < |s| ==> IsDigit(s[i])
    ensures DigitCount(s) == |s|
  {
    if s != "" {
      PlainDigitsAreCounted(s[..|s| - 1]);
    }
  }

  lemma {:induction false} PlainDigitsParse(s: string)
    requires AllDigits(s)
    ensures PyInt(s) == if |s| <= MAX_DIGITS then Some(Value(s)) else None
  {
    PlainDigitsAreCounted(s);
    assert IsDigit(s[0]) && IsDigit(s[|s| - 1]);
    assert Strip(s, IsAsciiSpace) == s;
  }

  // ---- the parser ----

  /** The position of the first dash, or the length. */
  function Dash(s: string): (d: nat)
    ensures d <= |s| && '-' !in s[..d] && (d < |s| ==> s[d] == '-')
  {
    if s == "" || s[0] == '-' then 0
    else
      var d := Dash(s[1..]) + 1;
      assert s[..d] == [s[0]] + s[1..][..d - 1];
      d
  }

  function Number(text: string): Result<int, RangeError> {
    var n := PyInt(text);
    if n.Some? then Success(n.value) else Failure(BadRange)
  }

  function Bounds(startText: string, endText: string, size: nat): Result<(int, int), RangeError> {
    if startText != "" then
      var start :- Number(startText);
      if endText == "" then Success((start, size - 1))
      else
        var end :- Number(endText);
        Success((start, end))
    else
      var suffix :- Number(endText);
      if suffix <= 0 then Failure(BadRange) else Success((Max(size - suffix, 0), size - 1))
  }

  /** The texts on the two sides of the dash. */
  function ParseHalves(startText: string, endText: string, size: nat): (r: Result<Range, RangeError>)
    ensures r.Success? ==> r.value.start <= r.value.end < size
  {
    var bounds :- Bounds(startText, endText, size);
    if bounds.0 < 0 || bounds.0 >= size || bounds.1 < bounds.0 then Failure(BadRange)
    else Success(Range(bounds.0, Min(bounds.1, size - 1)))
  }

  /** No header asks for no range. An accepted range lies inside the file. */
  function ParseSingleRange(header: string, size: nat): (r: Result<Option<Range>, RangeError>)
    ensures r.Success? && r.value.Some? ==> r.value.value.start <= r.value.value.end < size
    ensures r == Success(None) <==> header == ""
  {
    if header == "" then Success(None)
    else if !(PREFIX <= header) || ',' in header then Failure(BadRange)
    else
      var rest := header[|PREFIX|..];
      var d := Dash(rest);
      if d == |rest| || |rest| == 1 then Failure(BadRange)
      else
        var range :- ParseHalves(rest[..d], rest[d + 1..], size);
        Success(Some(range))
  }

  // ---- section 2.1 of RFC 7233 ----

  /** One byte-range-spec of the grammar, its numerals any non-empty strings of digits. */
  datatype Spec = FromTo(first: string, last: string) | From(first: string) | Suffix(length: string)

  predicate InGrammar(spec: Spec) {
    match spec
    case FromTo(first, last) => AllDigits(first) && AllDigits(last)
    case From(first) => AllDigits(first)
    case Suffix(length) => AllDigits(length)
  }

  /** What stands on the two sides of the dash. */
  function Halves(spec: Spec): (string, string) {
    match spec
    case FromTo(first, last) => (first, last)
    case From(first) => (first, "")
    case Suffix(length) => ("", length)
  }

  function Written(spec: Spec): string {
    PREFIX + Halves(spec).0 + "-" + Halves(spec).1
  }

  /** The positions of a file that the range selects. */
  predicate Selects(spec: Spec, size: nat, i: nat) {
    && i < size
    && match spec
       case FromTo(first, last) => Value(first) <= i <= Value(last)
       case From(first) => Value(first) <= i
       case Suffix(length) => size - Value(length) <= i
  }

  predicate Readable(spec: Spec) {
    match spec
    case FromTo(first, last) => |first| <= 4300 && |last| <= 4300
    case From(first) => |first| <= 4300
    case Suffix(length) => |length| <= 4300
  }

  /** The parser takes the header apart at the dash of the grammar. */
  lemma HeaderComesApart(startText: string, endText: string)
    requires forall i :: 0 <= i < |startText| ==> startText[i] != '-'
    ensures var header := PREFIX + startText + "-" + endText;
            var rest := header[|PREFIX|..];
            && PREFIX <= header && rest == startText + "-" + endText
            && Dash(rest) == |startText| && rest[..|startText|] == startText && rest[|startText| + 1..] == endText
  {
    var rest := startText + "-" + endText;
    var d := Dash(rest);
    assert rest[|startText|] == '-';
    assert (PREFIX + startText + "-" + endText)[|PREFIX|..] == rest;
  }

  lemma SplitHeaderParses(header: string, startText: string, endText: string, size: nat)
    requires PREFIX <= header && ',' !in header && header[|PREFIX|..] == startText + "-" + endText
    requires Dash(header[|PREFIX|..]) == |startText| && (startText != "" || endText != "")
    ensures ParseSingleRange(header, size)
         == match ParseHalves(startText, endText, size)
            case Failure(_) => Failure(BadRange)
            case Success(range) => Success(Some(range))
  {
    var rest := header[|PREFIX|..];
    assert rest[..|startText|] == startText && rest[|startText| + 1..] == endText;
  }

  lemma {:induction false} SpecParses(spec: Spec, size: nat)
    requires InGrammar(spec)
    ensures ParseSingleRange(Written(spec), size)
         == match ParseHalves(Halves(spec).0, Halves(spec).1, size)
            case Failure(_) => Failure(BadRange)
            case Success(range) => Success(Some(range))
  {
    var (a, b) := Halves(spec);
    HeaderComesApart(a, b);
    assert ',' !in PREFIX && ',' !in a && ',' !in b;
    SplitHeaderParses(Written(spec), a, b, size);
  }

  /** For every header in the grammar whose numerals Python reads, and every file size, the parser returns exactly the
      selected bytes, and refuses exactly when no byte is selected. */
  lemma ReadsEveryRfcRange(spec: Spec, size: nat)
    requires InGrammar(spec) && Readable(spec)
    ensures var r := ParseSingleRange(Written(spec), size);
            if exists i :: 0 <= i < size && Selects(spec, size, i)
            then r.Success? && r.value.Some?
                 && forall i: nat :: r.value.value.start <= i <= r.value.value.end <==> Selects(spec, size, i)
            else r == Failure(BadRange)
  {
    SpecParses(spec, size);
    match spec {
      case FromTo(first, last) =>
        PlainDigitsParse(first);
        PlainDigitsParse(last);
        if Value(first) <= Value(last) && Value(first) < size {
          assert Selects(spec, size, Value(first));
        }
      case From(first) =>
        PlainDigitsParse(first);
        if Value(first) < size {
          assert Selects(spec, size, Value(first));
        }
      case Suffix(length) =>
        PlainDigitsParse(length);
        if size > 0 && Value(length) > 0 {
          assert Selects(spec, size, size - 1);
        }
    }
  }

  /** A numeral of more than 4300 digits is refused, whatever it selects. */
  lemma {:induction false} UnreadableNumeralsAreRefused(spec: Spec, size: nat)
    requires InGrammar(spec) && !Readable(spec)
    ensures ParseSingleRange(Written(spec), size) == Failure(BadRange)
  {
    SpecParses(spec, size);
    match spec {
      case FromTo(first, last) =>
        PlainDigitsParse(first);
        PlainDigitsParse(last);
      case From(first) => PlainDigitsParse(first);
      case Suffix(length) => PlainDigitsParse(length);
    }
  }

  /** Nothing but digits around the first dash. */
  predicate Plain(rest: string) {
    forall i :: 0 <= i < |rest| ==> IsDigit(rest[i]) || i == Dash(rest)
  }

  lemma TheGrammarIsPlain(spec: Spec)
    requires InGrammar(spec)
    ensures PREFIX <= Written(spec) && Plain(Written(spec)[|PREFIX|..])
  {
  }

  lemma PlainIsInTheGrammar(header: string)
    requires PREFIX <= header && Plain(header[|PREFIX|..])
    requires var rest := header[|PREFIX|..]; Dash(rest) < |rest| && |rest| > 1
    ensures exists spec :: InGrammar(spec) && Written(spec) == header
  {
    var rest := header[|PREFIX|..];
    var d := Dash(rest);
    var a, b := rest[..d], rest[d + 1..];
    assert header == PREFIX + a + "-" + b;
    var spec := if a == "" then Suffix(b) else if b == "" then From(a) else FromTo(a, b);
    assert InGrammar(spec) && Written(spec) == header;
  }

  /** The parser also takes signs, underscores and blanks around a number, which the grammar does not have: an accepted
      header is in the grammar exactly when it holds nothing but digits around its dash. */
  lemma AcceptedIsInTheGrammarIffPlain(header: string, size: nat)
    requires var r := ParseSingleRange(header, size); r.Success? && r.value.Some?
    ensures (exists spec :: InGrammar(spec) && Written(spec) == header) <==> Plain(header[|PREFIX|..])
  {
    if Plain(header[|PREFIX|..]) {
      PlainIsInTheGrammar(header);
    }
    if spec :| InGrammar(spec) && Written(spec) == header {
      TheGrammarIsPlain(spec);
    }
  }

  lemma APlusSignIsAccepted()
    ensures ParseSingleRange("bytes=+1-2", 5) == Success(Some(Range(1, 2)))
    ensures !Plain("+1-2")
  {
    HeaderComesApart("+1", "2");
    assert PREFIX + "+1" + "-" + "2" == "bytes=+1-2";
    assert Strip("+1", IsAsciiSpace) == "+1" && Strip("2", IsAsciiSpace) == "2";
    assert DigitCount("1") == 1 == DigitCount("2") && Value("1") == 1 && Value("2") == 2;
    assert "+1-2"[0] == '+';
  }

  // ---- the range the response announces ----

  function Decimal(n: nat): string {
    var digit := ['0' + (n % 10) as char];
    if n < 10 then digit else Decimal(n / 10) + digit
  }

  lemma {:induction false} DecimalReadsBack(n: nat)
    ensures AllDigits(Decimal(n)) && Value(Decimal(n)) == n
  {
    var s := Decimal(n);
    if n >= 10 {
      DecimalReadsBack(n / 10);
      assert s[..|s| - 1] == Decimal(n / 10);
    } else {
      assert s[..0] == "";
    }
  }

  lemma {:induction false} ShorterNumbersAreShorter(m: nat, n: nat)
    requires m <= n
    ensures |Decimal(m)| <= |Decimal(n)|
  {
    if m >= 10 {
      ShorterNumbersAreShorter(m / 10, n / 10);
    }
  }

  /** Asking again for the range that was served gives it back. */
  lemma {:induction false} TheServedRangeReadsBack(header: string, size: nat)
    requires |Decimal(size)| <= MAX_DIGITS
    requires var r := ParseSingleRange(header, size); r.Success? && r.value.Some?
    ensures var r := ParseSingleRange(header, size);
            var served := r.value.value;
            ParseSingleRange(Written(FromTo(Decimal(served.start), Decimal(served.end))), size) == r
  {
    var served := ParseSingleRange(header, size).value.value;
    DecimalReadsBack(served.start);
    DecimalReadsBack(served.end);
    ShorterNumbersAreShorter(served.start, size);
    ShorterNumbersAreShorter(served.end, size);
    var spec := FromTo(Decimal(served.start), Decimal(served.end));
    SpecParses(spec, size);
    PlainDigitsParse(Decimal(served.start));
    PlainDigitsParse(Decimal(served.end));
  }

  // ---- the chunk loop ----

  /** A stored file opened for reading. A read may come back short, but only empty-handed at the end. */
  class FileHandle {
    const content: seq<bv8>
    var position: nat
    var closed: bool

    constructor (content: seq<bv8>)
      ensures this.content == content && position == 0 && !closed
    {
      this.content := content;
      position, closed := 0, false;
    }

    method Seek(to: nat)
      modifies this`position
      ensures position == to
    {
      position := to;
    }

    method Read(limit: nat) returns (chunk: seq<bv8>)
      requires !closed && limit > 0
      modifies this`position
      ensures position == old(position) + |chunk| && |chunk| <= limit
      ensures chunk == [] <==> old(position) >= |content|
      ensures chunk != [] ==> position <= |content| && chunk == content[old(position)..position]
    {
      if position >= |content| {
        return [];
      }
      var n :| 1 <= n <= limit && position + n <= |content|;
      chunk := content[position..position + n];
      position := position + n;
    }

    method Close()
      modifies this`closed
      ensures closed
    {
      closed := true;
    }
  }

  function Flatten(chunks: seq<seq<bv8>>): seq<bv8> {
    if chunks == [] then [] else Flatten(chunks[..|chunks| - 1]) + chunks[|chunks| - 1]
  }

  /** The chunks of a response, joined, are the next `length` bytes of the file, fewer only at its end; none is empty or
      larger than 64 KiB, and the file is closed. */
  method RangeChunks(file: FileHandle, length: nat) returns (chunks: seq<seq<bv8>>)
    requires !file.closed && file.position <= |file.content|
    modifies file
    ensures Flatten(chunks) == file.content[old(file.position)..Min(old(file.position) + length, |file.content|)]
    ensures forall i :: 0 <= i < |chunks| ==> 0 < |chunks[i]| <= 65536
    ensures file.closed
  {
    chunks := [];
    var remaining: nat := length;
    while remaining != 0
      invariant remaining <= length && !file.closed
      invariant old(file.position) + (length - remaining) == file.position <= |file.content|
      invariant Flatten(chunks) == file.content[old(file.position)..file.position]
      invariant forall i :: 0 <= i < |chunks| ==> 0 < |chunks[i]| <= CHUNK_SIZE
      decreases remaining
    {
      var chunk := file.Read(Min(CHUNK_SIZE, remaining));
      if chunk == [] {
        break;
      }
      remaining := remaining - |chunk|;
      assert (chunks + [chunk])[..|chunks|] == chunks;
      chunks := chunks + [chunk];
    }
    file.Close();
  }

  // ---- the response ----

  datatype Response =
    | NotSatisfiable(size: nat)
    | Whole(body: seq<bv8>)
    | Partial(range: Range, size: nat, contentLength: nat, body: seq<bv8>)

  /** 416 for a refused header, the file for none, and otherwise exactly the announced bytes of it. */
  method Serve(header: string, content: seq<bv8>) returns (response: Response)
    ensures match ParseSingleRange(header, |content|)
            case Failure(_) => response == NotSatisfiable(|content|)
            case Success(None) => response == Whole(content)
            case Success(Some(range)) =>
              response == Partial(range, |content|, range.end - range.start + 1, content[range.start..range.end + 1])
  {
    var parsed := ParseSingleRange(header, |content|);
    if parsed.Failure? {
      return NotSatisfiable(|content|);
    }
    if parsed.value.None? {
      return Whole(content);
    }
    var range := parsed.value.value;
    var file := new FileHandle(content);
    file.Seek(range.start);
    var chunks := RangeChunks(file, range.end - range.start + 1);
    response := Partial(range, |content|, range.end - range.start + 1, Flatten(chunks));
  }
}

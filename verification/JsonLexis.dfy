/**
  The scan that precedes deserialisation, and what it means for arbitrary bytes, read one
  byte at a time: which bytes are inside strings and tokens, how deep the brackets outside
  them are nested after each prefix, and where values start. The scan accepts exactly the
  documents whose strings close, whose brackets balance within the depth limit and whose
  values are within theirs, and every refusal has its cause.
 */
module JsonLexis {
  import opened Basics

  type byte = b: int | 0 <= b < 256

  type Bytes = seq<byte>

  const QUOTE: byte := 0x22
  const BACKSLASH: byte := 0x5C
  const COLON: byte := 0x3A
  const COMMA: byte := 0x2C
  const OPEN_BRACKET: byte := 0x5B
  const CLOSE_BRACKET: byte := 0x5D
  const OPEN_BRACE: byte := 0x7B
  const CLOSE_BRACE: byte := 0x7D

  datatype Limits = Limits(encodedBytes: nat, values: nat, depth: nat)

  datatype Limit = EncodedBytes | JsonValues | NestingDepth

  datatype Malformed = InvalidUtf8 | ByteOrderMark | JsonSyntax

  datatype Verdict = Accepted | Exceeds(limit: Limit, actual: nat) | Broken(kind: Malformed)

  /** ASCII whitespace: tab, line feed, form feed, carriage return, space. */
  predicate IsSpace(b: byte) {
    b == 0x09 || b == 0x0A || b == 0x0C || b == 0x0D || b == 0x20
  }

  /** Bytes that end a number or literal, besides whitespace. */
  predicate IsStop(b: byte) {
    b == COMMA || b == CLOSE_BRACKET || b == CLOSE_BRACE
  }

  /** Minus, digits, and the first letters of true, false and null. */
  predicate StartsToken(b: byte) {
    b == 0x2D || 0x30 <= b <= 0x39 || b == 0x74 || b == 0x66 || b == 0x6E
  }

  /** What follows a string whose opening quote has been read. */
  function AfterString(s: Bytes, escaped: bool): (r: Option<Bytes>)
    ensures r.Some? ==> |r.value| < |s|
  {
    if s == [] then None
    else if escaped then AfterString(s[1..], false)
    else if s[0] == BACKSLASH then AfterString(s[1..], true)
    else if s[0] == QUOTE then Some(s[1..])
    else AfterString(s[1..], false)
  }

  function SkipSpace(s: Bytes): (r: Bytes)
    ensures |r| <= |s|
  {
    if s != [] && IsSpace(s[0]) then SkipSpace(s[1..]) else s
  }

  function SkipToken(s: Bytes): (r: Bytes)
    ensures |r| <= |s|
  {
    if s != [] && !IsStop(s[0]) && !IsSpace(s[0]) then SkipToken(s[1..]) else s
  }

  /** Whether a string ending here is a member name. */
  predicate NamesMember(rest: Bytes) {
    var after := SkipSpace(rest);
    after != [] && after[0] == COLON
  }

  /** The scan of the remaining bytes, at a depth and with values already counted. */
  function Scan(s: Bytes, depth: nat, values: nat, limits: Limits): Verdict
    decreases |s|
  {
    if s == [] then
      if depth != 0 then Broken(JsonSyntax) else Accepted
    else if s[0] == QUOTE then
      match AfterString(s[1..], false)
      case None => Broken(JsonSyntax)
      case Some(rest) =>
        if NamesMember(rest) then Scan(rest, depth, values, limits)
        else if values + 1 > limits.values then Exceeds(JsonValues, values + 1)
        else Scan(rest, depth, values + 1, limits)
    else if s[0] == OPEN_BRACE || s[0] == OPEN_BRACKET then
      if values + 1 > limits.values then Exceeds(JsonValues, values + 1)
      else if depth + 1 > limits.depth then Exceeds(NestingDepth, depth + 1)
      else Scan(s[1..], depth + 1, values + 1, limits)
    else if s[0] == CLOSE_BRACE || s[0] == CLOSE_BRACKET then
      if depth == 0 then Broken(JsonSyntax) else Scan(s[1..], depth - 1, values, limits)
    else if StartsToken(s[0]) then
      if values + 1 > limits.values then Exceeds(JsonValues, values + 1)
      else Scan(SkipToken(s[1..]), depth, values + 1, limits)
    else
      Scan(s[1..], depth, values, limits)
  }

  predicate StartsWithMark(s: Bytes) {
    |s| >= 3 && s[0] == 0xEF && s[1] == 0xBB && s[2] == 0xBF
  }

  /** The whole check; whether the bytes are UTF-8 is the standard library's verdict. */
  function Check(input: Bytes, utf8: bool, limits: Limits): Verdict {
    if |input| > limits.encodedBytes then Exceeds(EncodedBytes, |input|)
    else if !utf8 then Broken(InvalidUtf8)
    else if StartsWithMark(input) then Broken(ByteOrderMark)
    else Scan(input, 0, 0, limits)
  }

  // Byte by byte.

  datatype Mode = Between | InString | Escaped | InToken

  /** What a byte does to the place the reader is in. */
  function Read(mode: Mode, b: byte): Mode {
    match mode
    case Between => if b == QUOTE then InString else if StartsToken(b) then InToken else Between
    case InString => if b == BACKSLASH then Escaped else if b == QUOTE then Between else InString
    case Escaped => InString
    case InToken => if IsStop(b) || IsSpace(b) then Between else InToken
  }

  function ModeAt(s: Bytes, i: nat): Mode
    requires i <= |s|
  {
    if i == 0 then Between else Read(ModeAt(s, i - 1), s[i - 1])
  }

  predicate Quoted(mode: Mode) {
    mode == InString || mode == Escaped
  }

  /** Byte i is neither inside a string nor inside a token. */
  predicate Structural(s: Bytes, i: nat)
    requires i < |s|
  {
    ModeAt(s, i) == Between || (ModeAt(s, i) == InToken && (IsStop(s[i]) || IsSpace(s[i])))
  }

  predicate Opens(s: Bytes, i: nat)
    requires i < |s|
  {
    Structural(s, i) && (s[i] == OPEN_BRACE || s[i] == OPEN_BRACKET)
  }

  predicate Closes(s: Bytes, i: nat)
    requires i < |s|
  {
    Structural(s, i) && (s[i] == CLOSE_BRACE || s[i] == CLOSE_BRACKET)
  }

  /** Opening brackets less closing ones among the first i bytes. */
  function DepthAt(s: Bytes, i: nat): int
    requires i <= |s|
  {
    if i == 0 then 0
    else DepthAt(s, i - 1) + if Opens(s, i - 1) then 1 else if Closes(s, i - 1) then -1 else 0
  }

  /** The string that opens at i closes at k. */
  ghost predicate StringEnds(s: Bytes, i: nat, k: nat) {
    && i < k < |s| && s[k] == QUOTE && ModeAt(s, k) == InString
    && (forall m: nat :: i < m <= k ==> Quoted(ModeAt(s, m)))
  }

  /** The string that opens at i is followed by whitespace and a colon. */
  ghost predicate IsName(s: Bytes, i: nat) {
    exists k: nat, c: nat :: StringEnds(s, i, k) && ColonFollows(s, k, c)
  }

  ghost predicate ColonFollows(s: Bytes, k: nat, c: nat) {
    k < c < |s| && s[c] == COLON && forall m: nat :: k < m < c ==> IsSpace(s[m])
  }

  /** A value starts at byte i: an array, an object, a number or literal, or a string that is not a name. */
  ghost predicate StartsValue(s: Bytes, i: nat)
    requires i < |s|
  {
    Opens(s, i) || (Structural(s, i) && (StartsToken(s[i]) || (s[i] == QUOTE && !IsName(s, i))))
  }

  /** The values that start among the first i bytes. */
  ghost function ValuesAt(s: Bytes, i: nat): nat
    requires i <= |s|
  {
    if i == 0 then 0 else ValuesAt(s, i - 1) + if StartsValue(s, i - 1) then 1 else 0
  }

  /** Brackets never close below the outermost level, and never nest too deep. */
  ghost predicate Balanced(s: Bytes, upTo: nat, depth: nat)
    requires upTo <= |s|
  {
    forall k: nat :: k <= upTo ==> 0 <= DepthAt(s, k) <= depth
  }

  ghost predicate Acceptable(s: Bytes, limits: Limits) {
    && !Quoted(ModeAt(s, |s|))
    && DepthAt(s, |s|) == 0 && Balanced(s, |s|, limits.depth)
    && ValuesAt(s, |s|) <= limits.values
  }

  /** An unclosed string, or brackets that do not balance. */
  ghost predicate Unbalanced(s: Bytes) {
    Quoted(ModeAt(s, |s|)) || DepthAt(s, |s|) != 0 || exists k: nat :: k <= |s| && DepthAt(s, k) < 0
  }

  ghost predicate TooDeep(s: Bytes, depth: nat) {
    exists k: nat :: k <= |s| && DepthAt(s, k) == depth + 1
  }

  /** What a verdict of the scan says about the bytes. */
  ghost predicate Means(s: Bytes, limits: Limits, v: Verdict) {
    match v
    case Accepted => Acceptable(s, limits)
    case Broken(kind) => kind == JsonSyntax && Unbalanced(s)
    case Exceeds(limit, actual) =>
      || (limit == JsonValues && actual == limits.values + 1 && ValuesAt(s, |s|) > limits.values)
      || (limit == NestingDepth && actual == limits.depth + 1 && TooDeep(s, limits.depth))
  }

  lemma {:induction false} ValuesGrow(s: Bytes, i: nat, j: nat)
    requires i <= j <= |s|
    ensures ValuesAt(s, i) <= ValuesAt(s, j)
    decreases j - i
  {
    if i < j {
      ValuesGrow(s, i, j - 1);
    }
  }

  /** Bytes inside strings and tokens count for nothing. */
  lemma {:induction false} NothingInside(s: Bytes, i: nat, j: nat)
    requires i <= j <= |s| && forall m: nat :: i <= m < j ==> !Structural(s, m)
    ensures ValuesAt(s, j) == ValuesAt(s, i)
    ensures forall k: nat :: i <= k <= j ==> DepthAt(s, k) == DepthAt(s, i)
    decreases j - i
  {
    if i < j {
      NothingInside(s, i, j - 1);
      assert !Structural(s, j - 1);
    }
  }

  /** From inside a string, the scan for its end reads as the modes do. */
  lemma {:induction false} InsideString(s: Bytes, j: nat, escaped: bool) returns (end: nat)
    requires j <= |s| && ModeAt(s, j) == if escaped then Escaped else InString
    ensures AfterString(s[j..], escaped) == None ==> Quoted(ModeAt(s, |s|))
    ensures AfterString(s[j..], escaped).Some? ==>
              && j < end <= |s| && AfterString(s[j..], escaped).value == s[end..]
              && ModeAt(s, end) == Between && s[end - 1] == QUOTE && ModeAt(s, end - 1) == InString
              && forall m: nat :: j <= m < end ==> Quoted(ModeAt(s, m))
    decreases |s| - j
  {
    end := j;
    if j < |s| {
      assert s[j..][1..] == s[j + 1..] && s[j..][0] == s[j];
      if !escaped && s[j] == QUOTE {
        end := j + 1;
      } else {
        end := InsideString(s, j + 1, !escaped && s[j] == BACKSLASH);
      }
    }
  }

  lemma {:induction false} AfterSpace(s: Bytes, j: nat) returns (c: nat)
    requires j <= |s|
    ensures j <= c <= |s| && SkipSpace(s[j..]) == s[c..] && (c < |s| ==> !IsSpace(s[c]))
    ensures forall m: nat :: j <= m < c ==> IsSpace(s[m])
    decreases |s| - j
  {
    c := j;
    if j < |s| && IsSpace(s[j]) {
      assert s[j..][1..] == s[j + 1..];
      c := AfterSpace(s, j + 1);
    }
  }

  lemma {:induction false} InsideToken(s: Bytes, j: nat) returns (end: nat)
    requires j <= |s| && ModeAt(s, j) == InToken
    ensures j <= end <= |s| && SkipToken(s[j..]) == s[end..] && ModeAt(s, end) == InToken
    ensures end < |s| ==> Structural(s, end)
    ensures forall m: nat :: j <= m < end ==> !Structural(s, m)
    decreases |s| - j
  {
    end := j;
    if j < |s| && !IsStop(s[j]) && !IsSpace(s[j]) {
      assert s[j..][1..] == s[j + 1..];
      end := InsideToken(s, j + 1);
    }
  }

  lemma StringEndsOnce(s: Bytes, i: nat, k: nat, end: nat)
    requires StringEnds(s, i, k) && StringEnds(s, i, end)
    ensures k == end
  {
    assert ModeAt(s, k + 1) == Between && ModeAt(s, end + 1) == Between;
  }

  /** Looking past the string for a colon decides whether it is a name. */
  lemma NameIsSeen(s: Bytes, i: nat, end: nat)
    requires StringEnds(s, i, end)
    ensures NamesMember(s[end + 1..]) <==> IsName(s, i)
  {
    var c := AfterSpace(s, end + 1);
    if NamesMember(s[end + 1..]) {
      assert ColonFollows(s, end, c);
    }
    if IsName(s, i) {
      var k: nat, d: nat :| StringEnds(s, i, k) && ColonFollows(s, k, d);
      StringEndsOnce(s, i, k, end);
      assert c == d;
    }
  }

  /** The scan is at byte i, between strings and tokens, with the right counts. */
  ghost predicate Reached(s: Bytes, i: nat, depth: nat, values: nat, limits: Limits) {
    && i <= |s| && !Quoted(ModeAt(s, i)) && (i < |s| ==> Structural(s, i))
    && depth == DepthAt(s, i) && values == ValuesAt(s, i) <= limits.values && Balanced(s, i, limits.depth)
  }

  lemma StringStep(s: Bytes, i: nat, depth: nat, values: nat, limits: Limits) returns (end: nat)
    requires Reached(s, i, depth, values, limits) && i < |s| && s[i] == QUOTE
    ensures AfterString(s[i + 1..], false) == None ==> Quoted(ModeAt(s, |s|))
    ensures AfterString(s[i + 1..], false).Some? ==>
              && i < end <= |s| && AfterString(s[i + 1..], false).value == s[end..]
              && ModeAt(s, end) == Between && DepthAt(s, end) == depth && Balanced(s, end, limits.depth)
              && ValuesAt(s, end) == values + if NamesMember(s[end..]) then 0 else 1
  {
    end := InsideString(s, i + 1, false);
    if AfterString(s[i + 1..], false).Some? {
      assert StringEnds(s, i, end - 1);
      NameIsSeen(s, i, end - 1);
      NothingInside(s, i + 1, end);
    }
  }

  lemma TokenStep(s: Bytes, i: nat, depth: nat, values: nat, limits: Limits) returns (end: nat)
    requires Reached(s, i, depth, values, limits) && i < |s| && StartsToken(s[i])
    ensures i < end <= |s| && SkipToken(s[i + 1..]) == s[end..] && ModeAt(s, end) == InToken
    ensures end < |s| ==> Structural(s, end)
    ensures DepthAt(s, end) == depth && Balanced(s, end, limits.depth) && ValuesAt(s, end) == values + 1
  {
    end := InsideToken(s, i + 1);
    NothingInside(s, i + 1, end);
  }

  /** Any other byte is read by itself. */
  lemma ByteStep(s: Bytes, i: nat, depth: nat, values: nat, limits: Limits)
    requires Reached(s, i, depth, values, limits) && i < |s| && s[i] != QUOTE && !StartsToken(s[i])
    ensures ModeAt(s, i + 1) == Between
    ensures DepthAt(s, i + 1) == depth + (if Opens(s, i) then 1 else if Closes(s, i) then -1 else 0)
    ensures ValuesAt(s, i + 1) == values + if Opens(s, i) then 1 else 0
  {
  }

  /** The scan from a point it has reached says what the whole document is. */
  lemma {:induction false} ScanMeans(s: Bytes, i: nat, depth: nat, values: nat, limits: Limits)
    requires Reached(s, i, depth, values, limits)
    ensures Means(s, limits, Scan(s[i..], depth, values, limits))
    decreases |s| - i
  {
    if i < |s| {
      assert s[i..][1..] == s[i + 1..] && s[i..][0] == s[i];
      if s[i] == QUOTE {
        StringMeans(s, i, depth, values, limits);
      } else if StartsToken(s[i]) {
        TokenMeans(s, i, depth, values, limits);
      } else {
        ByteMeans(s, i, depth, values, limits);
      }
    }
  }

  lemma {:induction false} StringMeans(s: Bytes, i: nat, depth: nat, values: nat, limits: Limits)
    requires Reached(s, i, depth, values, limits) && i < |s| && s[i] == QUOTE
    ensures Means(s, limits, Scan(s[i..], depth, values, limits))
    decreases |s| - i, 0
  {
    assert s[i..][1..] == s[i + 1..];
    var end := StringStep(s, i, depth, values, limits);
    if AfterString(s[i + 1..], false).Some? {
      ValuesGrow(s, end, |s|);
      if ValuesAt(s, end) <= limits.values {
        ScanMeans(s, end, depth, ValuesAt(s, end), limits);
      }
    }
  }

  lemma {:induction false} TokenMeans(s: Bytes, i: nat, depth: nat, values: nat, limits: Limits)
    requires Reached(s, i, depth, values, limits) && i < |s| && StartsToken(s[i])
    ensures Means(s, limits, Scan(s[i..], depth, values, limits))
    decreases |s| - i, 0
  {
    assert s[i..][1..] == s[i + 1..];
    var end := TokenStep(s, i, depth, values, limits);
    ValuesGrow(s, end, |s|);
    if values + 1 <= limits.values {
      ScanMeans(s, end, depth, values + 1, limits);
    }
  }

  lemma {:induction false} ByteMeans(s: Bytes, i: nat, depth: nat, values: nat, limits: Limits)
    requires Reached(s, i, depth, values, limits) && i < |s| && s[i] != QUOTE && !StartsToken(s[i])
    ensures Means(s, limits, Scan(s[i..], depth, values, limits))
    decreases |s| - i, 0
  {
    assert s[i..][1..] == s[i + 1..];
    ByteStep(s, i, depth, values, limits);
    ValuesGrow(s, i + 1, |s|);
    if Opens(s, i) {
      if values + 1 <= limits.values && depth + 1 <= limits.depth {
        ScanMeans(s, i + 1, depth + 1, values + 1, limits);
      }
    } else if Closes(s, i) {
      if depth > 0 {
        ScanMeans(s, i + 1, depth - 1, values, limits);
      }
    } else {
      ScanMeans(s, i + 1, depth, values, limits);
    }
  }

  /** On arbitrary bytes: accepted exactly when acceptable, and refused for a cause. */
  lemma ScanDecides(s: Bytes, limits: Limits)
    ensures Scan(s, 0, 0, limits) == Accepted <==> Acceptable(s, limits)
    ensures Means(s, limits, Scan(s, 0, 0, limits))
  {
    assert s[0..] == s;
    assert Reached(s, 0, 0, 0, limits);
    ScanMeans(s, 0, 0, 0, limits);
  }
}

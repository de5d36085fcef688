/** The string operations the pairing code is built on: trimming, searching, hex and XML tags. */
module Text {
  import opened Bytes
  import opened Wrappers

  // ---- trimming ----

  /** The Unicode White_Space characters, which `str::trim` strips. */
  predicate IsWhitespace(c: char) {
    var u := c as int;
    || 9 <= u <= 13 || u == 32 || u == 0x85 || u == 0xA0 || u == 0x1680 || 0x2000 <= u <= 0x200A
    || u == 0x2028 || u == 0x2029 || u == 0x202F || u == 0x205F || u == 0x3000
  }

  function TrimStart(s: string): string {
    if s != "" && IsWhitespace(s[0]) then TrimStart(s[1..]) else s
  }

  function TrimEnd(s: string): string {
    if s != "" && IsWhitespace(s[|s| - 1]) then TrimEnd(s[..|s| - 1]) else s
  }

  function Trim(s: string): string { TrimEnd(TrimStart(s)) }

  predicate SpaceFree(s: string) { forall i :: 0 <= i < |s| ==> !IsWhitespace(s[i]) }

  lemma TrimIdle(s: string)
    requires SpaceFree(s)
    ensures Trim(s) == s
  {
  }

  /** White space, one by one: the 25 characters with Unicode's White_Space property. */
  lemma WhitespaceList(c: char)
    ensures IsWhitespace(c) <==>
              c as int in [0x09, 0x0a, 0x0b, 0x0c, 0x0d, 0x20, 0x85, 0xa0, 0x1680,
                           0x2000, 0x2001, 0x2002, 0x2003, 0x2004, 0x2005, 0x2006, 0x2007, 0x2008, 0x2009, 0x200a,
                           0x2028, 0x2029, 0x202f, 0x205f, 0x3000]
  {
  }

  predicate AllSpace(s: string) { forall i :: 0 <= i < |s| ==> IsWhitespace(s[i]) }

  lemma {:induction false} TrimStartExact(s: string) returns (front: string)
    ensures AllSpace(front) && s == front + TrimStart(s)
    ensures TrimStart(s) != "" ==> !IsWhitespace(TrimStart(s)[0])
  {
    if s == "" || !IsWhitespace(s[0]) {
      front := "";
    } else {
      var more := TrimStartExact(s[1..]);
      front := [s[0]] + more;
      ConsSpace(s, more, TrimStart(s[1..]));
    }
  }

  lemma ConsSpace(s: string, front: string, rest: string)
    requires s != "" && IsWhitespace(s[0]) && AllSpace(front) && s[1..] == front + rest
    ensures AllSpace([s[0]] + front) && s == [s[0]] + front + rest
  {
    assert s == [s[0]] + s[1..];
  }

  lemma {:induction false} TrimEndExact(s: string) returns (back: string)
    ensures AllSpace(back) && s == TrimEnd(s) + back
    ensures TrimEnd(s) != "" ==> !IsWhitespace(TrimEnd(s)[|TrimEnd(s)| - 1])
  {
    if s == "" || !IsWhitespace(s[|s| - 1]) {
      back := "";
    } else {
      var more := TrimEndExact(s[..|s| - 1]);
      back := more + [s[|s| - 1]];
      assert s == (TrimEnd(s[..|s| - 1]) + more) + [s[|s| - 1]];
    }
  }

  /** `trim` takes away white space at both ends, all of it, and nothing else. */
  lemma TrimExact(s: string) returns (front: string, back: string)
    ensures AllSpace(front) && AllSpace(back) && s == front + Trim(s) + back
    ensures Trim(s) != "" ==> !IsWhitespace(Trim(s)[0]) && !IsWhitespace(Trim(s)[|Trim(s)| - 1])
  {
    front := TrimStartExact(s);
    back := TrimEndExact(TrimStart(s));
    var t := TrimStart(s);
    if Trim(s) != "" { assert Trim(s)[0] == t[0]; }
  }

  // ---- searching ----

  ghost predicate Occurs(hay: string, needle: string, i: nat) {
    i + |needle| <= |hay| && hay[i..i + |needle|] == needle
  }

  ghost predicate Contains(hay: string, needle: string) {
    exists i: nat :: Occurs(hay, needle, i)
  }

  lemma OccursInTail(hay: string, needle: string, j: nat)
    requires hay != "" && j > 0
    ensures Occurs(hay, needle, j) <==> Occurs(hay[1..], needle, j - 1)
  {
    if j + |needle| <= |hay| {
      assert hay[j..j + |needle|] == hay[1..][j - 1..j - 1 + |needle|];
    }
  }

  /** `str::find` */
  function Find(hay: string, needle: string): (r: Option<nat>) {
    if |hay| < |needle| then None
    else if hay[..|needle|] == needle then Some(0)
    else match Find(hay[1..], needle)
      case None => None
      case Some(i) => Some(i + 1)
  }

  /** `find` returns the first occurrence, and nothing only when there is none. */
  lemma {:induction false} FindIsFirst(hay: string, needle: string)
    ensures match Find(hay, needle)
            case Some(i) => Occurs(hay, needle, i) && forall j: nat :: j < i ==> !Occurs(hay, needle, j)
            case None => !Contains(hay, needle)
  {
    if |hay| < |needle| || hay[..|needle|] == needle {
    } else {
      FindIsFirst(hay[1..], needle);
      forall j: nat
        ensures Occurs(hay, needle, j) <==> j > 0 && Occurs(hay[1..], needle, j - 1)
      {
        if j == 0 {
        } else {
          OccursInTail(hay, needle, j);
        }
      }
    }
  }

  lemma FoundAt(hay: string, needle: string, i: nat)
    requires Occurs(hay, needle, i) && forall j: nat :: j < i ==> !Occurs(hay, needle, j)
    ensures Find(hay, needle) == Some(i)
  {
    FindIsFirst(hay, needle);
  }

  /** A needle that starts with `<` and has no other `<`: every tag, and the app separator. */
  predicate TagLike(needle: string) {
    needle != "" && needle[0] == '<' && '<' !in needle[1..]
  }

  /** Such a needle cannot straddle the end of a prefix it does not occur in. */
  lemma FirstAfter(pre: string, needle: string, post: string)
    requires TagLike(needle) && !Contains(pre, needle)
    ensures Find(pre + needle + post, needle) == Some(|pre|)
  {
    var hay := pre + needle + post;
    assert hay[|pre|..|pre| + |needle|] == needle;
    forall j: nat | j < |pre|
      ensures !Occurs(hay, needle, j)
    {
      var k := |pre| - j;
      if j + |needle| <= |pre| {
        assert hay[j..j + |needle|] == pre[j..j + |needle|];
        assert !Occurs(pre, needle, j);
      } else {
        assert needle[k] == needle[1..][k - 1];
        if j + |needle| <= |hay| { assert hay[j..j + |needle|][k] == hay[|pre|]; }
      }
    }
    FoundAt(hay, needle, |pre|);
  }

  lemma NoAngle(s: string, needle: string)
    requires '<' !in s && TagLike(needle)
    ensures !Contains(s, needle)
  {
    forall i: nat
      ensures !Occurs(s, needle, i)
    {
      if i + |needle| <= |s| { assert s[i] == s[i..i + |needle|][0]; }
    }
  }

  /** A piece that starts with its only `<` holds a tag only at its start. */
  lemma OneAngle(s: string, needle: string)
    requires s != "" && '<' !in s[1..] && TagLike(needle) && !(needle <= s)
    ensures !Contains(s, needle)
  {
    forall i: nat
      ensures !Occurs(s, needle, i)
    {
      if i + |needle| <= |s| {
        assert s[i..i + |needle|][0] == s[i];
        if i > 0 { assert s[i] == s[1..][i - 1]; }
      }
    }
  }

  /** No tag straddles two pieces when the second starts with `<`. */
  lemma NoStraddle(s: string, s': string, needle: string)
    requires TagLike(needle) && s' != "" && s'[0] == '<'
    requires !Contains(s, needle) && !Contains(s', needle)
    ensures !Contains(s + s', needle)
  {
    forall i: nat
      ensures !Occurs(s + s', needle, i)
    {
      if i + |needle| <= |s| {
        assert (s + s')[i..i + |needle|] == s[i..i + |needle|];
        assert !Occurs(s, needle, i);
      } else if i >= |s| {
        if i + |needle| <= |s + s'| {
          assert (s + s')[i..i + |needle|] == s'[i - |s|..i - |s| + |needle|];
          assert !Occurs(s', needle, i - |s|);
        }
      } else {
        var k := |s| - i;
        assert needle[k] == needle[1..][k - 1];
        if i + |needle| <= |s + s'| { assert (s + s')[i..i + |needle|][k] == s'[0]; }
      }
    }
  }

  // ---- XML tags ----

  function Open(tag: string): string { "<" + tag + ">" }

  function Close(tag: string): string { "</" + tag + ">" }

  /** `xml_tag`: what stands between the first opening tag and the first closing tag after it. */
  function XmlTag(xml: string, tag: string): (r: Option<string>) {
    match Find(xml, Open(tag))
    case None => None
    case Some(i) =>
      FindIsFirst(xml, Open(tag));
      var rest := xml[i + |Open(tag)|..];
      match Find(rest, Close(tag))
      case None => None
      case Some(j) =>
        FindIsFirst(rest, Close(tag));
        Some(rest[..j])
  }

  /** A well-placed element is read back, whatever surrounds it. */
  lemma XmlTagReads(pre: string, tag: string, value: string, post: string)
    requires '<' !in tag
    requires !Contains(pre, Open(tag)) && !Contains(value, Close(tag))
    ensures XmlTag(pre + Open(tag) + value + Close(tag) + post, tag) == Some(value)
  {
    var open, close := Open(tag), Close(tag);
    var rest := value + close + post;
    assert pre + open + value + close + post == pre + open + rest;
    FirstAfter(pre, open, rest);
    assert (pre + open + rest)[|pre| + |open|..] == rest;
    FirstAfter(value, close, post);
    assert rest[..|value|] == value;
  }

  /** The same in the characters of the markup. */
  lemma XmlTagReadsMarkup(pre: string, tag: string, value: string, post: string)
    requires '<' !in tag
    requires !Contains(pre, "<" + tag + ">") && !Contains(value, "</" + tag + ">")
    ensures XmlTag(pre + "<" + tag + ">" + value + "</" + tag + ">" + post, tag) == Some(value)
  {
    XmlTagReads(pre, tag, value, post);
    assert pre + "<" + tag + ">" + value + "</" + tag + ">" + post == pre + Open(tag) + value + Close(tag) + post;
  }

  /** And nothing is read when the opening tag, or a closing tag behind the first one, is not there. */
  lemma XmlTagNeedsBoth(xml: string, tag: string)
    ensures XmlTag(xml, tag).Some? ==> Contains(xml, "<" + tag + ">") && Contains(xml, "</" + tag + ">")
  {
    FindIsFirst(xml, Open(tag));
    if XmlTag(xml, tag).Some? {
      var i := Find(xml, Open(tag)).value;
      assert Occurs(xml, "<" + tag + ">", i);
      var from := i + |Open(tag)|;
      FindIsFirst(xml[from..], Close(tag));
      OccursBehind(xml, from, Close(tag), Find(xml[from..], Close(tag)).value);
    }
  }

  lemma OccursBehind(hay: string, from: nat, needle: string, j: nat)
    requires from <= |hay| && Occurs(hay[from..], needle, j)
    ensures Occurs(hay, needle, from + j)
  {
    assert hay[from..][j..j + |needle|] == hay[from + j..from + j + |needle|];
  }

  // ---- hex ----

  function HexDigit(n: nat): char
    requires n < 16
  {
    (if n < 10 then '0' as int + n else 'A' as int + n - 10) as char
  }

  function LowerHexDigit(n: nat): char
    requires n < 16
  {
    (if n < 10 then '0' as int + n else 'a' as int + n - 10) as char
  }

  /** `to_digit(16)` */
  function DigitValue(c: char): (v: Option<nat>)
    ensures v.Some? ==> v.value < 16
  {
    if '0' <= c <= '9' then Some(c as int - '0' as int)
    else if 'A' <= c <= 'F' then Some(c as int - 'A' as int + 10)
    else if 'a' <= c <= 'f' then Some(c as int - 'a' as int + 10)
    else None
  }

  /** `to_hex`: two upper-case digits a byte. */
  function ToHex(b: seq<byte>): (s: string)
    ensures |s| == 2 * |b|
  {
    if b == [] then "" else [HexDigit(b[0] / 16), HexDigit(b[0] % 16)] + ToHex(b[1..])
  }

  /** The `{b:02x}` rendering that `sha256_hex` prints. */
  function ToLowerHex(b: seq<byte>): (s: string)
    ensures |s| == 2 * |b|
  {
    if b == [] then "" else [LowerHexDigit(b[0] / 16), LowerHexDigit(b[0] % 16)] + ToLowerHex(b[1..])
  }

  /** The digits of base 16, as characters: both renderings and the reader against the two alphabets. */
  lemma HexAlphabets(n: nat)
    requires n < 16
    ensures HexDigit(n) == "0123456789ABCDEF"[n] && LowerHexDigit(n) == "0123456789abcdef"[n]
    ensures DigitValue("0123456789ABCDEF"[n]) == DigitValue("0123456789abcdef"[n]) == Some(n)
  {
  }

  /** And no other character is a digit. */
  lemma DigitsAreHex(c: char)
    ensures DigitValue(c).Some? <==> c in "0123456789ABCDEF" || c in "0123456789abcdef"
  {
    if DigitValue(c).Some? {
      var n := DigitValue(c).value;
      HexAlphabets(n);
      assert c == "0123456789ABCDEF"[n] || c == "0123456789abcdef"[n];
    } else if c in "0123456789ABCDEF" {
      var i :| 0 <= i < 16 && "0123456789ABCDEF"[i] == c;
      HexAlphabets(i);
    } else if c in "0123456789abcdef" {
      var i :| 0 <= i < 16 && "0123456789abcdef"[i] == c;
      HexAlphabets(i);
    }
  }

  /** The printed digest, character by character: the high half of each byte, then the low half, in lower case. */
  lemma {:induction false} ToLowerHexAt(b: seq<byte>, i: nat)
    requires i < |b|
    ensures ToLowerHex(b)[2 * i] == "0123456789abcdef"[b[i] / 16]
    ensures ToLowerHex(b)[2 * i + 1] == "0123456789abcdef"[b[i] % 16]
  {
    HexAlphabets(b[0] / 16);
    HexAlphabets(b[0] % 16);
    if i == 0 {
    } else {
      ToLowerHexAt(b[1..], i - 1);
    }
  }

  lemma {:induction false} ToHexAt(b: seq<byte>, i: nat)
    requires i < |b|
    ensures ToHex(b)[2 * i] == "0123456789ABCDEF"[b[i] / 16]
    ensures ToHex(b)[2 * i + 1] == "0123456789ABCDEF"[b[i] % 16]
  {
    HexAlphabets(b[0] / 16);
    HexAlphabets(b[0] % 16);
    if i == 0 {
    } else {
      ToHexAt(b[1..], i - 1);
    }
  }

  /** The UTF-8 encoding of a character. */
  function Utf8(c: char): seq<byte> {
    var u := c as int;
    if u <= 0x7f then [u]
    else if u <= 0x7ff then [0xc0 + u / 0x40, 0x80 + u % 0x40]
    else if u <= 0xffff then [0xe0 + u / 0x1000, 0x80 + u / 0x40 % 0x40, 0x80 + u % 0x40]
    else [0xf0 + u / 0x4_0000, 0x80 + u / 0x1000 % 0x40, 0x80 + u / 0x40 % 0x40, 0x80 + u % 0x40]
  }

  lemma Utf8WidthIsLength(c: char)
    ensures Utf8Width(c) == |Utf8(c)|
  {
  }

  /** How many bytes a character takes in UTF-8; `str::len` and `str` slicing count these. */
  function Utf8Width(c: char): nat {
    var u := c as int;
    if u < 0x80 then 1 else if u < 0x800 then 2 else if u < 0x1_0000 then 3 else 4
  }

  function Utf8Len(s: string): nat {
    if s == "" then 0 else Utf8Width(s[0]) + Utf8Len(s[1..])
  }

  /** `u8::from_str_radix` on two characters, which accepts a leading `+`. */
  function ReadPair(a: char, b: char): (r: Option<byte>) {
    if a == '+' then DigitValue(b)
    else match (DigitValue(a), DigitValue(b))
      case (Some(hi), Some(lo)) => Some(16 * hi + lo)
      case _ => None
  }

  /**
   The loop of `from_hex`, over byte offsets 0, 2, 4, … It slices `&s[i..i + 2]`, which panics
   unless both ends are character boundaries.
   */
  function ReadPairs(s: string): Outcome<seq<byte>>
    requires Utf8Len(s) % 2 == 0
  {
    if s == "" then Ok([])
    else if Utf8Width(s[0]) == 2 then Err
    else if Utf8Width(s[0]) > 2 || Utf8Width(s[1]) > 1 then Panic
    else
      assert Utf8Len(s) == 2 + Utf8Len(s[2..]) by { assert s[1..][1..] == s[2..]; }
      match ReadPair(s[0], s[1])
      case None => Err
      case Some(v) =>
        match ReadPairs(s[2..])
        case Ok(vs) => Ok([v] + vs)
        case Err => Err
        case Panic => Panic
  }

  /** `from_hex` */
  function FromHex(s: string): Outcome<seq<byte>> {
    var t := Trim(s);
    if Utf8Len(t) % 2 != 0 then Err else ReadPairs(t)
  }

  predicate IsHexDigit(c: char) { DigitValue(c).Some? }

  predicate IsAscii(s: string) { forall i :: 0 <= i < |s| ==> s[i] as int < 0x80 }

  lemma {:induction false} AsciiLen(s: string)
    requires IsAscii(s)
    ensures Utf8Len(s) == |s|
  {
    if s == "" {
    } else {
      AsciiLen(s[1..]);
    }
  }

  predicate AllHex(s: string) { forall i :: 0 <= i < |s| ==> IsHexDigit(s[i]) }

  lemma {:induction false} ToHexIsHex(b: seq<byte>)
    ensures AllHex(ToHex(b))
  {
    if b == [] {
    } else {
      ToHexIsHex(b[1..]);
      DigitValueInverse(b[0] / 16);
      DigitValueInverse(b[0] % 16);
    }
  }

  lemma DigitValueInverse(n: nat)
    requires n < 16
    ensures DigitValue(HexDigit(n)) == Some(n) && HexDigit(n) != '+'
  {
  }

  lemma HexIsPlain(s: string)
    requires AllHex(s)
    ensures IsAscii(s) && SpaceFree(s)
  {
  }

  lemma {:induction false} ToHexReads(b: seq<byte>)
    requires Utf8Len(ToHex(b)) % 2 == 0
    ensures ReadPairs(ToHex(b)) == Ok(b)
  {
    if b == [] {
    } else {
      var s := ToHex(b);
      assert s[2..] == ToHex(b[1..]);
      assert Utf8Len(s) == 2 + Utf8Len(s[2..]) by { assert s[1..][1..] == s[2..]; }
      ToHexReads(b[1..]);
      DigitValueInverse(b[0] / 16);
      DigitValueInverse(b[0] % 16);
      assert ReadPair(s[0], s[1]) == Some(b[0]);
      assert b == [b[0]] + b[1..];
    }
  }

  /** Hex digits need no trimming and are one byte each. */
  lemma FromHexOfDigits(s: string)
    requires AllHex(s) && |s| % 2 == 0
    ensures Utf8Len(s) % 2 == 0 && FromHex(s) == ReadPairs(s)
  {
    HexIsPlain(s);
    TrimIdle(s);
    AsciiLen(s);
  }

  /** Every byte string survives the trip through hex. */
  lemma HexRoundTrip(b: seq<byte>)
    ensures FromHex(ToHex(b)) == Ok(b)
  {
    ToHexIsHex(b);
    FromHexOfDigits(ToHex(b));
    ToHexReads(b);
  }

  lemma {:induction false} ToLowerHexIsHex(b: seq<byte>)
    ensures AllHex(ToLowerHex(b))
  {
    if b == [] {
    } else {
      ToLowerHexIsHex(b[1..]);
      LowerDigitReads(b[0] / 16);
      LowerDigitReads(b[0] % 16);
    }
  }

  lemma {:induction false} ToLowerHexReads(b: seq<byte>)
    requires Utf8Len(ToLowerHex(b)) % 2 == 0
    ensures ReadPairs(ToLowerHex(b)) == Ok(b)
  {
    if b == [] {
    } else {
      ToLowerHexReadsStep(b);
      ToLowerHexReads(b[1..]);
    }
  }

  lemma ToLowerHexReadsStep(b: seq<byte>)
    requires b != []
    ensures Utf8Len(ToLowerHex(b)) == 2 + Utf8Len(ToLowerHex(b[1..]))
    ensures Utf8Len(ToLowerHex(b)) % 2 == 0 && ReadPairs(ToLowerHex(b[1..])) == Ok(b[1..]) ==>
              ReadPairs(ToLowerHex(b)) == Ok(b)
  {
    var x, y, rest := LowerHexDigit(b[0] / 16), LowerHexDigit(b[0] % 16), ToLowerHex(b[1..]);
    LowerPairReads(b[0]);
    PairAndRest(x, y, rest);
    assert ToLowerHex(b) == [x, y] + rest;
    assert b == [b[0]] + b[1..];
  }

  lemma LowerPairReads(v: byte)
    ensures var x, y := LowerHexDigit(v / 16), LowerHexDigit(v % 16);
            Utf8Width(x) == Utf8Width(y) == 1 && ReadPair(x, y) == Some(v)
  {
    LowerDigitReads(v / 16);
    LowerDigitReads(v % 16);
  }

  lemma LowerDigitReads(n: nat)
    requires n < 16
    ensures DigitValue(LowerHexDigit(n)) == Some(n) && LowerHexDigit(n) != '+' && Utf8Width(LowerHexDigit(n)) == 1
  {
  }

  lemma PairAndRest(x: char, y: char, rest: string)
    requires Utf8Width(x) == 1 && Utf8Width(y) == 1
    ensures Utf8Len([x, y] + rest) == 2 + Utf8Len(rest)
    ensures Utf8Len(rest) % 2 == 0 && ReadPair(x, y).Some? && ReadPairs(rest).Ok? ==>
              ReadPairs([x, y] + rest) == Ok([ReadPair(x, y).value] + ReadPairs(rest).value)
  {
    var s := [x, y] + rest;
    assert s[2..] == rest && s[0] == x && s[1] == y;
    TwoChars(s);
  }

  /** The lower-case rendering reads back as well. */
  lemma LowerHexRoundTrip(b: seq<byte>)
    ensures FromHex(ToLowerHex(b)) == Ok(b)
  {
    ToLowerHexIsHex(b);
    FromHexOfDigits(ToLowerHex(b));
    ToLowerHexReads(b);
  }

  function UpperChar(c: char): char {
    if 'a' <= c <= 'z' then (c as int - 32) as char else c
  }

  function Upper(s: string): (u: string)
    ensures |u| == |s|
  {
    if s == "" then "" else [UpperChar(s[0])] + Upper(s[1..])
  }

  /** What `from_hex` accepts, two characters at a time. */
  predicate Readable(s: string) {
    s == "" || (|s| >= 2 && ReadPair(s[0], s[1]).Some? && Readable(s[2..]))
  }

  /** No pair begins with the `+` that Rust's radix parser skips. */
  predicate PlusFree(s: string) {
    |s| < 2 || (s[0] != '+' && PlusFree(s[2..]))
  }

  lemma TwoChars(s: string)
    requires |s| >= 2
    ensures Utf8Len(s) == Utf8Width(s[0]) + Utf8Width(s[1]) + Utf8Len(s[2..])
    ensures Upper(s) == [UpperChar(s[0]), UpperChar(s[1])] + Upper(s[2..])
  {
    var t := s[1..];
    assert t[1..] == s[2..] && t[0] == s[1];
    assert Upper(t) == [UpperChar(s[1])] + Upper(s[2..]);
    TwoHeads(UpperChar(s[0]), UpperChar(s[1]), Upper(s[2..]));
  }

  lemma TwoHeads(a: char, b: char, s: string)
    ensures [a] + ([b] + s) == [a, b] + s
  {
  }

  /** A pair that reads is plain ASCII, and prints back as itself in upper case unless it begins with `+`. */
  lemma PairPrintsBack(a: char, b: char)
    requires ReadPair(a, b).Some?
    ensures Utf8Width(a) == Utf8Width(b) == 1
    ensures var v := ReadPair(a, b).value;
            [HexDigit(v / 16), HexDigit(v % 16)] == [UpperChar(a), UpperChar(b)] <==> a != '+'
  {
    var v := ReadPair(a, b).value;
    if a == '+' { assert v / 16 == 0; }
  }

  lemma {:induction false} ReadPairsAccepts(s: string)
    requires Utf8Len(s) % 2 == 0
    ensures ReadPairs(s).Ok? <==> Readable(s)
    decreases |s|
  {
    if |s| == 1 {
      assert s[1..] == "" && Utf8Len(s) == Utf8Width(s[0]);
      assert !Readable(s);
    } else if |s| >= 2 {
      TwoChars(s);
      if ReadPair(s[0], s[1]).Some? {
        PairPrintsBack(s[0], s[1]);
        ReadPairsAccepts(s[2..]);
      } else {
        assert !Readable(s);
      }
    }
  }

  lemma {:induction false} ReadPairsPrintsBack(s: string)
    requires Utf8Len(s) % 2 == 0 && ReadPairs(s).Ok?
    ensures ToHex(ReadPairs(s).value) == Upper(s) <==> PlusFree(s)
    decreases |s|
  {
    if |s| < 2 {
    } else {
      TwoChars(s);
      PairPrintsBack(s[0], s[1]);
      ReadPairsPrintsBack(s[2..]);
      var v, vs := ReadPair(s[0], s[1]).value, ReadPairs(s[2..]).value;
      assert ([v] + vs)[1..] == vs;
      SameHeads(HexDigit(v / 16), HexDigit(v % 16), ToHex(vs), UpperChar(s[0]), UpperChar(s[1]), Upper(s[2..]));
    }
  }

  lemma SameHeads(a: char, b: char, s: string, a': char, b': char, s': string)
    ensures [a, b] + s == [a', b'] + s' <==> [a, b] == [a', b'] && s == s'
  {
    assert ([a, b] + s)[2..] == s && ([a', b'] + s')[2..] == s';
    assert ([a, b] + s)[..2] == [a, b] && ([a', b'] + s')[..2] == [a', b'];
  }

  /** Two bytes into the string is not a character boundary, so slicing there unwinds. */
  predicate Breaks(s: string) {
    s != "" && (Utf8Width(s[0]) > 2 || (Utf8Width(s[0]) == 1 && |s| >= 2 && Utf8Width(s[1]) > 1))
  }

  /** After k readable pairs the next two bytes cannot be sliced off. */
  predicate BreaksAfter(s: string, k: nat) {
    2 * k <= |s| && Readable(s[..2 * k]) && Breaks(s[2 * k..])
  }

  lemma BreaksLater(s: string, k: nat)
    requires |s| >= 2 && k > 0
    ensures BreaksAfter(s, k) <==> ReadPair(s[0], s[1]).Some? && BreaksAfter(s[2..], k - 1)
  {
    if 2 * k <= |s| {
      assert s[..2 * k][2..] == s[2..][..2 * (k - 1)];
      assert s[2 * k..] == s[2..][2 * (k - 1)..];
    }
  }

  lemma BreaksNow(s: string)
    ensures BreaksAfter(s, 0) <==> Breaks(s)
  {
    assert s[..0] == "" && s[0..] == s;
  }

  ghost predicate EverBreaks(s: string) { exists k: nat :: BreaksAfter(s, k) }

  lemma EverBreaksStep(s: string)
    ensures EverBreaks(s)
       <==> Breaks(s) || (|s| >= 2 && ReadPair(s[0], s[1]).Some? && EverBreaks(s[2..]))
  {
    BreaksNow(s);
    if EverBreaks(s) {
      var k: nat :| BreaksAfter(s, k);
      if k > 0 {
        BreaksLater(s, k);
        assert BreaksAfter(s[2..], k - 1);
      }
    }
    if |s| >= 2 && ReadPair(s[0], s[1]).Some? && EverBreaks(s[2..]) {
      var k: nat :| BreaksAfter(s[2..], k);
      BreaksLater(s, k + 1);
      assert BreaksAfter(s, k + 1);
    }
  }

  lemma {:induction false} ReadPairsUnwinds(s: string)
    requires Utf8Len(s) % 2 == 0
    ensures ReadPairs(s).Panic? <==> EverBreaks(s)
    decreases |s|
  {
    EverBreaksStep(s);
    if s == "" {
    } else if |s| == 1 {
      assert Utf8Len(s) == Utf8Width(s[0]) by { assert s[1..] == ""; }
    } else {
      TwoChars(s);
      if ReadPair(s[0], s[1]).Some? {
        PairPrintsBack(s[0], s[1]);
        ReadPairsUnwinds(s[2..]);
      }
    }
  }

  /**
   What `from_hex` does on every input: an odd byte length is refused; otherwise it succeeds exactly
   on strings of readable pairs, and unwinds exactly when, after some readable pairs, two bytes cannot
   be sliced off; printing a success gives back the input in upper case exactly when no pair begins
   with `+`.
   */
  lemma FromHexExactly(s: string)
    ensures Utf8Len(Trim(s)) % 2 != 0 ==> FromHex(s) == Err
    ensures FromHex(s).Ok? <==> Utf8Len(Trim(s)) % 2 == 0 && Readable(Trim(s))
    ensures FromHex(s).Panic? <==> Utf8Len(Trim(s)) % 2 == 0 && exists k: nat :: BreaksAfter(Trim(s), k)
    ensures FromHex(s).Ok? ==> (ToHex(FromHex(s).value) == Upper(Trim(s)) <==> PlusFree(Trim(s)))
  {
    var t := Trim(s);
    if Utf8Len(t) % 2 == 0 {
      ReadPairsAccepts(t);
      ReadPairsUnwinds(t);
      if ReadPairs(t).Ok? { ReadPairsPrintsBack(t); }
    }
  }

  /** Four bytes, the first three of them one character: the slice unwinds. */
  lemma EuroUnwinds()
    ensures FromHex("\U{20AC}a").Panic?
  {
    var s := "\U{20AC}a";
    TrimIdle(s);
    TwoChars(s);
    assert s[2..] == "";
    BreaksNow(s);
    FromHexExactly(s);
  }

  lemma TrimAscii(s: string)
    requires IsAscii(s)
    ensures IsAscii(Trim(s))
  {
    TrimStartAscii(s);
    TrimEndAscii(TrimStart(s));
  }

  lemma {:induction false} TrimStartAscii(s: string)
    requires IsAscii(s)
    ensures IsAscii(TrimStart(s))
  {
    if s == "" || !IsWhitespace(s[0]) {
    } else {
      TrimStartAscii(s[1..]);
    }
  }

  lemma {:induction false} TrimEndAscii(s: string)
    requires IsAscii(s)
    ensures IsAscii(TrimEnd(s))
  {
    if s == "" || !IsWhitespace(s[|s| - 1]) {
    } else {
      TrimEndAscii(s[..|s| - 1]);
    }
  }

  /** ASCII never makes it unwind. */
  lemma AsciiNeverUnwinds(s: string)
    requires IsAscii(s)
    ensures !FromHex(s).Panic?
  {
    TrimAscii(s);
    FromHexExactly(s);
    forall k: nat
      ensures !BreaksAfter(Trim(s), k)
    {
      if 2 * k <= |Trim(s)| {
        var rest := Trim(s)[2 * k..];
        assert forall i :: 0 <= i < |rest| ==> rest[i] == Trim(s)[2 * k + i];
      }
    }
  }

  lemma {:induction false} AllHexReads(s: string)
    requires AllHex(s) && |s| % 2 == 0
    ensures Readable(s) && PlusFree(s)
    decreases |s|
  {
    if s == "" {
    } else {
      assert AllHex(s[2..]);
      AllHexReads(s[2..]);
    }
  }

  /** In particular, an even number of hex digits reads, and prints back in upper case. */
  lemma HexDigitsPrintBack(s: string)
    requires AllHex(Trim(s)) && |Trim(s)| % 2 == 0
    ensures FromHex(s).Ok? && ToHex(FromHex(s).value) == Upper(Trim(s))
  {
    HexIsPlain(Trim(s));
    AsciiLen(Trim(s));
    AllHexReads(Trim(s));
    FromHexExactly(s);
  }

  /** The round trip from text fails on a `+`: two characters that are not hex read as a byte. */
  lemma PlusReadsAsHex()
    ensures FromHex("+5") == Ok([5]) && ToHex([5]) == "05"
  {
    var s := "+5";
    TrimIdle(s);
    TwoChars(s);
    assert s[2..] == "";
    assert ReadPair(s[0], s[1]) == Some(5);
    assert ReadPairs(s) == Ok([5] + []);
    assert [5] + [] == [5 as byte];
  }
}

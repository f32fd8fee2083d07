/** Descriptor items, the name patterns that give them their role, and the small
    number helpers (`pad`, `parseIndex`, decimal rendering) of the slide player. */
module Items {

  datatype Option<T> = None | Some(value: T)

  /** Success or failure with a user-visible message (the player's thrown errors). */
  datatype Result<T> = Success(value: T) | Failure(error: string)

  /** The `index` field of a descriptor item as it appears in the JSON:
      an integral number, a string, or missing. */
  datatype IndexField = Number(n: int) | Text(s: string) | Absent

  /** One entry of a slide descriptor. A missing `human_name` or `name` is the
      empty string: both are falsy and match none of the role names. */
  datatype RawItem = RawItem(
    humanName: string,
    bitmap: Option<string>,
    bbox: Option<seq<int>>,
    index: IndexField,
    name: string)

  /** `item.bitmap` is truthy: present and not the empty string. */
  predicate HasBitmap(item: RawItem) {
    item.bitmap.Some? && item.bitmap.value != ""
  }

  /** `Array.isArray(item.bbox) && item.bbox.length === 4`. */
  predicate HasBox(item: RawItem) {
    item.bbox.Some? && |item.bbox.value| == 4
  }

  // ---------------------------------------------------------------------------
  // Name patterns: /^photo\d+$/i and /^text\d+$/i

  predicate IsDigit(c: char) {
    '0' <= c <= '9'
  }

  predicate AllDigits(s: string) {
    forall i :: 0 <= i < |s| ==> IsDigit(s[i])
  }

  /** ASCII lower-casing, the only case folding a non-unicode `i` regex applies
      to the letters of these patterns. */
  function ToLower(c: char): char {
    if 'A' <= c <= 'Z' then (c as int + 32) as char else c
  }

  /** `s` is `prefix` (given in lower case, compared case-insensitively)
      followed by one or more decimal digits. */
  predicate MatchesNumbered(s: string, prefix: string) {
    |s| > |prefix| &&
    (forall i :: 0 <= i < |prefix| ==> ToLower(s[i]) == prefix[i]) &&
    AllDigits(s[|prefix|..])
  }

  predicate IsPhotoName(s: string) {
    MatchesNumbered(s, "photo")
  }

  predicate IsTextName(s: string) {
    MatchesNumbered(s, "text")
  }

  /** The photo and text patterns never both match, and the two exact names
      `bg` and `slide_title` match neither. */
  lemma NamePatternsDisjoint(s: string)
    ensures !(IsPhotoName(s) && IsTextName(s))
    ensures !IsPhotoName("bg") && !IsTextName("bg")
    ensures !IsPhotoName("slide_title") && !IsTextName("slide_title")
  {
    if IsPhotoName(s) {
      assert ToLower(s[0]) == "photo"[0];
    }
    assert !IsTextName("slide_title") by {
      assert ToLower("slide_title"[0]) != 't';
    }
  }

  // ---------------------------------------------------------------------------
  // Decimal numbers

  function DigitChar(d: nat): (c: char)
    requires d < 10
    ensures IsDigit(c)
  {
    ('0' as int + d) as char
  }

  function DigitValue(c: char): nat
    requires IsDigit(c)
  {
    c as int - '0' as int
  }

  /** The value of a string of decimal digits (the empty string is 0). */
  function DigitsValue(s: string): nat
    requires AllDigits(s)
  {
    if s == [] then 0 else DigitsValue(s[..|s| - 1]) * 10 + DigitValue(s[|s| - 1])
  }

  /** `String(n)` for a non-negative integer. */
  function Decimal(n: nat): (s: string)
    ensures 1 <= |s| && AllDigits(s)
    ensures n < 10 <==> |s| == 1
  {
    if n < 10 then [DigitChar(n)] else Decimal(n / 10) + [DigitChar(n % 10)]
  }

  /** Decimal rendering is read back by DigitsValue: the labels and status lines
      that embed a number carry exactly that number. */
  lemma {:induction false} DecimalRoundTrip(n: nat)
    ensures DigitsValue(Decimal(n)) == n
  {
    var s := Decimal(n);
    if n >= 10 {
      DecimalRoundTrip(n / 10);
      assert s[..|s| - 1] == Decimal(n / 10);
    }
  }

  /** Decimal never starts with a zero unless the number is zero. */
  lemma DecimalNoLeadingZero(n: nat)
    ensures Decimal(n)[0] == '0' <==> n == 0
  {
    if n >= 10 {
      DecimalNoLeadingZero(n / 10);
    }
  }

  lemma {:induction false} LeadingZeroValue(s: string)
    requires AllDigits(s)
    ensures DigitsValue("0" + s) == DigitsValue(s)
  {
    if s != [] {
      var t := "0" + s;
      assert t[..|t| - 1] == "0" + s[..|s| - 1];
      LeadingZeroValue(s[..|s| - 1]);
    }
  }

  /** `pad(num)`: `String(num).padStart(2, '0')`. The result is at least two
      digits long, denotes `n`, and is exactly two digits long iff `n < 100`. */
  function Pad(n: nat): (s: string)
    ensures AllDigits(s) && DigitsValue(s) == n
    ensures |s| == 2 <==> n < 100
  {
    var d := Decimal(n);
    DecimalRoundTrip(n);
    if |d| < 2 then LeadingZeroValue(d); "0" + d else PadLength(n); d
  }

  lemma PadLength(n: nat)
    ensures |Decimal(n)| == 2 <==> 10 <= n < 100
    ensures n >= 100 ==> |Decimal(n)| > 2
  {
    if n >= 10 {
      PadLength(n / 10);
    }
  }

  /** Distinct sequence numbers get distinct identifiers. */
  lemma PadInjective(i: nat, j: nat)
    requires Pad(i) == Pad(j)
    ensures i == j
  {
  }

  // ---------------------------------------------------------------------------
  // parseIndex

  /** The white space `parseInt` skips before the number: the ECMAScript
      white space (tab, vertical tab, form feed, the byte-order mark and every
      space separator of Unicode category Zs) and the four line terminators. */
  predicate IsSpace(c: char) {
    c == '\t' || c == '\U{B}' || c == '\U{C}' || c == '\U{FEFF}' ||
    c == ' ' || c == '\U{A0}' || c == '\U{1680}' || '\U{2000}' <= c <= '\U{200A}' ||
    c == '\U{202F}' || c == '\U{205F}' || c == '\U{3000}' ||
    c == '\n' || c == '\r' || c == '\U{2028}' || c == '\U{2029}'
  }

  /** `s` without its leading white space. */
  function TrimStart(s: string): (r: string)
    ensures r == [] || !IsSpace(r[0])
  {
    if s != [] && IsSpace(s[0]) then TrimStart(s[1..]) else s
  }

  /** The longest prefix of `s` made of decimal digits. */
  function DigitPrefix(s: string): (r: string)
    ensures AllDigits(r) && |r| <= |s|
  {
    if s != [] && IsDigit(s[0]) then [s[0]] + DigitPrefix(s[1..]) else []
  }

  /** `parseInt(idx, 10)` when it yields a number. A number is its own value; a
      string is read after its leading white space as an optional sign and the
      longest run of decimal digits that follows, ignoring whatever comes after;
      no digits there, or no index at all, is NaN. */
  function ParseInteger(f: IndexField): (r: Option<int>)
    ensures f.Number? ==> r == Some(f.n)
    ensures f.Absent? ==> r.None?
  {
    match f
    case Number(n) => Some(n)
    case Absent => None
    case Text(s) =>
      var t := TrimStart(s);
      var signed := t != [] && (t[0] == '-' || t[0] == '+');
      var digits := DigitPrefix(if signed then t[1..] else t);
      if digits == [] then None
      else
        var v: int := DigitsValue(digits);
        Some(if signed && t[0] == '-' then -v else v)
  }

  /** `parseIndex`: the parsed integer, or 0 when the field does not parse. */
  function ParseIndex(f: IndexField): (r: int)
    ensures f.Number? ==> r == f.n
    ensures f.Absent? ==> r == 0
  {
    match ParseInteger(f)
    case Some(n) => n
    case None => 0
  }

  /** Signed decimal text, as a descriptor written by a tool would hold it. */
  function SignedDecimal(n: int): string {
    if n < 0 then "-" + Decimal(-n) else Decimal(n)
  }

  lemma {:induction false} DigitPrefixStops(d: string, rest: string)
    requires AllDigits(d)
    requires rest == [] || !IsDigit(rest[0])
    ensures DigitPrefix(d + rest) == d
  {
    if d != [] {
      assert (d + rest)[1..] == d[1..] + rest;
      DigitPrefixStops(d[1..], rest);
    } else {
      assert d + rest == rest;
    }
  }

  /** An index written as decimal text parses back to its value, also when text
      that does not start with a digit follows it (`"3px"` is 3) and when it
      is preceded by white space; a missing index, or text with no digits after
      the sign, is 0. */
  lemma ParseIndexRoundTrip(n: int, rest: string, space: string)
    requires rest == [] || !IsDigit(rest[0])
    requires forall i :: 0 <= i < |space| ==> IsSpace(space[i])
    ensures ParseIndex(Text(space + SignedDecimal(n) + rest)) == n
    ensures ParseIndex(Number(n)) == n
    ensures ParseIndex(Absent) == 0 && ParseIndex(Text("")) == 0 && ParseIndex(Text("-")) == 0
  {
    ParseSignedDecimal(n, rest, space);
    NoDigitsNoIndex();
  }

  lemma ParseSignedDecimal(n: int, rest: string, space: string)
    requires rest == [] || !IsDigit(rest[0])
    requires forall i :: 0 <= i < |space| ==> IsSpace(space[i])
    ensures ParseInteger(Text(space + SignedDecimal(n) + rest)) == Some(n)
  {
    var m: nat := if n < 0 then -n else n;
    var sign := if n < 0 then "-" else "";
    SignedDecimalText(n, space, rest);
    DecimalRoundTrip(m);
    ParseDigits(space + SignedDecimal(n) + rest, space, sign, Decimal(m), rest);
  }

  lemma SignedDecimalText(n: int, space: string, rest: string)
    ensures space + SignedDecimal(n) + rest ==
      space + ((if n < 0 then "-" else "") + Decimal(if n < 0 then -n else n) + rest)
  {
    assert SignedDecimal(n) == (if n < 0 then "-" else "") + Decimal(if n < 0 then -n else n);
  }

  /** Blanks, an optional minus sign, a digit run and text that does not go on
      with a digit: `parseInt` reads the signed value of the run. */
  lemma ParseDigits(text: string, space: string, sign: string, d: string, rest: string)
    requires text == space + (sign + d + rest)
    requires sign == "-" || sign == ""
    requires AllDigits(d) && d != []
    requires rest == [] || !IsDigit(rest[0])
    requires forall i :: 0 <= i < |space| ==> IsSpace(space[i])
    ensures ParseInteger(Text(text)) ==
      Some(if sign == "-" then -(DigitsValue(d) as int) else DigitsValue(d))
  {
    var t := sign + d + rest;
    assert t[0] == if sign == "-" then '-' else d[0];
    TrimSpace(space, t);
    DigitPrefixStops(d, rest);
    if sign == "-" {
      assert t[1..] == d + rest;
      ParseNegative(text, t, d);
    } else {
      assert t == d + rest;
      ParseUnsigned(text, t, d);
    }
  }

  lemma NoDigitsNoIndex()
    ensures ParseInteger(Text("")) == None && ParseInteger(Text("-")) == None
  {
    assert TrimStart("") == "";
    assert TrimStart("-") == "-";
    assert "-"[1..] == [];
    assert DigitPrefix([]) == [];
  }

  /** Text with no number after its blanks and optional sign (`"abc"`, `"+"`,
      `"px3"`, `" -x"`) does not parse, so its index is the fallback 0. */
  lemma NoNumberNoIndex(space: string, sign: string, rest: string)
    requires forall i :: 0 <= i < |space| ==> IsSpace(space[i])
    requires sign == "-" || sign == "+" || sign == ""
    requires sign + rest != []
    requires rest == [] || !IsDigit(rest[0])
    requires sign == "" ==> !IsSpace(rest[0]) && rest[0] != '-' && rest[0] != '+'
    ensures ParseIndex(Text(space + (sign + rest))) == 0
  {
    var t := sign + rest;
    TrimSpace(space, t);
    if sign != "" {
      assert t[1..] == rest;
    } else {
      assert t == rest;
    }
  }

  /** What `parseInt` reads from text whose first non-blank character is a
      minus sign followed by the digit run `d`. */
  lemma ParseNegative(s: string, t: string, d: string)
    requires TrimStart(s) == t && t != [] && t[0] == '-'
    requires DigitPrefix(t[1..]) == d && d != []
    ensures ParseInteger(Text(s)) == Some(-(DigitsValue(d) as int))
  {
  }

  /** What `parseInt` reads from text whose first non-blank character starts
      the digit run `d`. */
  lemma ParseUnsigned(s: string, t: string, d: string)
    requires TrimStart(s) == t && t != [] && t[0] != '-' && t[0] != '+'
    requires DigitPrefix(t) == d && d != []
    ensures ParseInteger(Text(s)) == Some(DigitsValue(d))
  {
  }

  lemma {:induction false} TrimSpace(space: string, s: string)
    requires forall i :: 0 <= i < |space| ==> IsSpace(space[i])
    requires s != [] && !IsSpace(s[0])
    ensures TrimStart(space + s) == s
  {
    if space != [] {
      assert (space + s)[1..] == space[1..] + s;
      TrimSpace(space[1..], s);
    } else {
      assert space + s == s;
    }
  }
}

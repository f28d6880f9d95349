/** Values of a parsed JSON request body, and the two Python conversions the
    routes apply to them: `str(v)` (what an f-string or `.format` inserts)
    and `int(v)`. */
module Json {
  import opened Strings

  /** A JSON value as `request.get_json()` hands it to Python. A number with
      a fraction is kept as the integer `int()` truncates it to and the text
      `str()` prints for it; the literals `NaN`, `Infinity` and `-Infinity`,
      which Python's JSON reader accepts, as the float they stand for; an
      array or object only as its `str()` text. */
  datatype JsonValue =
    | JNull
    | JBool(b: bool)
    | JInt(i: int)
    | JFloat(whole: int, text: string)
    | JNonFinite(kind: NonFinite)
    | JStr(s: string)
    | JComposite(text: string)

  datatype NonFinite = NaN | Infinity | NegInfinity

  /** A request body that parsed to a JSON object. */
  type Body = map<string, JsonValue>

  /** `str(v)` */
  function PyStr(v: JsonValue): string {
    match v
    case JNull => "None"
    case JBool(b) => if b then "True" else "False"
    case JInt(i) => IntToString(i)
    case JFloat(_, t) => t
    case JNonFinite(k) => (match k case NaN => "nan" case Infinity => "inf" case NegInfinity => "-inf")
    case JStr(s) => s
    case JComposite(t) => t
  }

  /** The outcome of `int(v)`: a value, or the exception Python raises. */
  datatype IntConversion = Converted(value: int) | ValueError | TypeError | OverflowError

  /** `int(v)`: strings are parsed, finite numbers truncated, booleans are 0
      or 1; a NaN raises `ValueError`, an infinity `OverflowError`, and
      `None`, arrays and objects raise `TypeError`. */
  function PyInt(v: JsonValue): (r: IntConversion)
    ensures r.TypeError? <==> v.JNull? || v.JComposite?
    ensures r.OverflowError? <==> v.JNonFinite? && !v.kind.NaN?
    ensures r.ValueError? <==> v == JNonFinite(NaN) || (v.JStr? && ParseIntText(v.s).None?)
    ensures v.JStr? ==> (r.Converted? <==> ParseIntText(v.s).Some?)
  {
    match v
    case JNull => TypeError
    case JBool(b) => Converted(if b then 1 else 0)
    case JInt(i) => Converted(i)
    case JFloat(w, _) => Converted(w)
    case JNonFinite(k) => if k.NaN? then ValueError else OverflowError
    case JStr(s) => (match ParseIntText(s) case Some(n) => Converted(n) case None => ValueError)
    case JComposite(_) => TypeError
  }

  /** The digits of an integer literal as `int()` accepts them: decimal
      digits, single underscores allowed between two digits. */
  predicate DigitRun(b: string) {
    |b| >= 1 && forall i :: 0 <= i < |b| ==> IsDigit(b[i]) || (b[i] == '_' && 0 < i < |b| - 1 && IsDigit(b[i + 1]))
  }

  lemma DigitRunChars(b: string)
    requires DigitRun(b)
    ensures forall i :: 0 <= i < |b| ==> IsDigit(b[i]) || b[i] == '_'
  {
    forall i | 0 <= i < |b| ensures IsDigit(b[i]) || b[i] == '_' {
      assert IsDigit(b[i]) || (b[i] == '_' && 0 < i < |b| - 1 && IsDigit(b[i + 1]));
    }
  }

  function DropUnderscores(b: string): (r: string)
    ensures (forall i :: 0 <= i < |b| ==> IsDigit(b[i]) || b[i] == '_') ==> AllDigits(r)
    ensures AllDigits(b) ==> r == b
  {
    if |b| == 0 then ""
    else (if b[0] == '_' then "" else [b[0]]) + DropUnderscores(b[1..])
  }

  /** The first code point of each run of ten decimal digits (Unicode
      category Nd, version 15.0) beyond ASCII: Arabic-Indic, Devanagari, …,
      fullwidth, the mathematical digits, segmented digits. */
  const DigitZeros: seq<int> :=
    [0x660, 0x6F0, 0x7C0, 0x966, 0x9E6, 0xA66, 0xAE6, 0xB66, 0xBE6, 0xC66]
    + ([0xCE6, 0xD66, 0xDE6, 0xE50, 0xED0, 0xF20, 0x1040, 0x1090, 0x17E0, 0x1810]
    + ([0x1946, 0x19D0, 0x1A80, 0x1A90, 0x1B50, 0x1BB0, 0x1C40, 0x1C50, 0xA620, 0xA8D0]
    + ([0xA900, 0xA9D0, 0xA9F0, 0xAA50, 0xABF0, 0xFF10, 0x104A0, 0x10D30, 0x11066, 0x110F0]
    + ([0x11136, 0x111D0, 0x112F0, 0x11450, 0x114D0, 0x11650, 0x116C0, 0x11730, 0x118E0, 0x11950]
    + ([0x11C50, 0x11D50, 0x11DA0, 0x11F50, 0x16A60, 0x16AC0, 0x16B50, 0x1D7CE, 0x1D7D8, 0x1D7E2]
    + ([0x1D7EC, 0x1D7F6, 0x1E140, 0x1E2F0, 0x1E4F0, 0x1E950, 0x1FBF0]))))))

  /** `unicodedata.decimal(ch, None)`: the value of a decimal digit of any
      script; after the ASCII digits, none lies below U+0660. */
  function DecimalOf(ch: char): (r: Option<nat>)
    ensures r.Some? ==> r.value < 10 && '0' <= ch
    ensures IsDigit(ch) ==> r == Some(DigitValue(ch))
  {
    if ch < '0' then None
    else if IsDigit(ch) then Some(DigitValue(ch))
    else if ch < '\U{660}' then None
    else DecimalFrom(ch as int, 0)
  }

  function DecimalFrom(code: int, k: nat): (r: Option<nat>)
    ensures r.Some? ==> r.value < 10
    decreases |DigitZeros| - k
  {
    if k >= |DigitZeros| then None
    else if DigitZeros[k] <= code < DigitZeros[k] + 10 then Some(code - DigitZeros[k])
    else DecimalFrom(code, k + 1)
  }

  /** Before parsing, `int()` rewrites each decimal digit of any script as
      the ASCII digit of the same value. */
  function AsciiDigits(t: string): (r: string)
    ensures |r| == |t|
  {
    seq(|t|, i requires 0 <= i < |t| => match DecimalOf(t[i]) case Some(d) => DigitChar(d) case None => t[i])
  }

  lemma AsciiDigitsOfDigits(t: string)
    requires AllDigits(t)
    ensures AsciiDigits(t) == t
  {
    forall i | 0 <= i < |t| ensures AsciiDigits(t)[i] == t[i] {
      assert DecimalOf(t[i]) == Some(DigitValue(t[i]));
    }
  }

  /** The most digits `int()` converts from text; a longer literal raises
      `ValueError` (the default of `sys.set_int_max_str_digits`). */
  const MaxStrDigits := 4300

  /** The whitespace `int()` skips around a literal: Python's whitespace
      except the ASCII separators U+001C..U+001F, which `int()` keeps as
      they are and then refuses. */
  predicate IntSpace(ch: char) {
    IsSpace(ch) && !('\U{1c}' <= ch <= '\U{1f}')
  }

  /** The text without the leading whitespace `int()` skips; everything
      removed is such whitespace. */
  function IntStripStart(s: string): (r: string)
    ensures |r| <= |s| && r == s[|s| - |r|..]
    ensures r == [] || !IntSpace(r[0])
    ensures forall i :: 0 <= i < |s| - |r| ==> IntSpace(s[i])
    decreases |s|
  {
    if |s| > 0 && IntSpace(s[0]) then IntStripStart(s[1..]) else s
  }

  /** The text without the trailing whitespace `int()` skips; everything
      removed is such whitespace. */
  function IntStripEnd(s: string): (r: string)
    ensures |r| <= |s| && r == s[..|r|]
    ensures r == [] || !IntSpace(r[|r| - 1])
    ensures forall i :: |r| <= i < |s| ==> IntSpace(s[i])
    decreases |s|
  {
    if |s| > 0 && IntSpace(s[|s| - 1]) then IntStripEnd(s[..|s| - 1]) else s
  }

  function IntStrip(s: string): string {
    IntStripEnd(IntStripStart(s))
  }

  /** An ASCII separator U+001C..U+001F in front of a text is not skipped:
      `int("\x1c2024")` raises `ValueError`, although `"\x1c".isspace()`. */
  lemma LeadingSeparatorRefused(s: string)
    requires |s| > 0 && '\U{1c}' <= s[0] <= '\U{1f}'
    ensures IsSpace(s[0]) && ParseIntText(s) == None
  {
    var t := IntStrip(s);
    assert IntStripStart(s) == s;
    assert |t| > 0 && t[0] == s[0];
    assert DecimalOf(s[0]) == None;
    var b := AsciiDigits(t);
    assert b[0] == s[0] && !IsDigit(b[0]) && b[0] != '_';
    NoDigitRunFrom(b);
    assert t[0] != '-' && t[0] != '+';
  }

  lemma NoDigitRunFrom(b: string)
    requires |b| > 0 && !IsDigit(b[0]) && b[0] != '_'
    ensures !DigitRun(b)
  {
    if DigitRun(b) {
      DigitRunChars(b);
      assert false;
    }
  }

  /** `int(s)` for a string: surrounding whitespace is ignored, then an
      optional sign and a run of decimal digits of any script, at most
      `MaxStrDigits` of them; anything else is rejected (`ValueError`). */
  function ParseIntText(s: string): Option<int>
  {
    ParseIntLiteral(IntStrip(s))
  }

  /** The stripped text as `int()` reads it. */
  function ParseIntLiteral(t: string): Option<int>
  {
    if |t| == 0 then None
    else
      var body := AsciiDigits(if t[0] == '-' || t[0] == '+' then t[1..] else t);
      if DigitRun(body) && |DropUnderscores(body)| <= MaxStrDigits then
        DigitRunChars(body);
        var n: int := DecimalValue(DropUnderscores(body));
        Some(if t[0] == '-' then -n else n)
      else None
  }

  /** A decimal digit of any script, alone, reads as its value. */
  lemma SingleDigitParses(ch: char, d: nat)
    requires DecimalOf(ch) == Some(d) && !IntSpace(ch)
    ensures ParseIntText([ch]) == Some(d)
  {
    var t := [ch];
    assert IntStrip(t) == t by {
      NoSpaceStrip(t);
    }
    assert AsciiDigits(t) == IntToString(d) by {
      assert AsciiDigits(t) == [DigitChar(d)];
    }
    AsciiDigitsOfDigits(IntToString(d));
    SameDigitsSameLiteral(t, IntToString(d));
    ParseIntLiteralOfIntToString(d);
  }

  /** So the Arabic-Indic digit of value d (U+0660 + d) reads as d, as
      `int()` reads it. */
  lemma ArabicIndicDigitParses(d: nat)
    requires d < 10
    ensures ParseIntText([(0x660 + d) as char]) == Some(d)
  {
    assert DecimalFrom(0x660 + d, 0) == Some(d);
    SingleDigitParses((0x660 + d) as char, d);
  }

  /** `int()` reads two unsigned texts alike when they are the same digits. */
  lemma SameDigitsSameLiteral(t: string, u: string)
    requires |t| > 0 && |u| > 0
    requires t[0] != '-' && t[0] != '+' && u[0] != '-' && u[0] != '+'
    requires AsciiDigits(t) == AsciiDigits(u)
    ensures ParseIntLiteral(t) == ParseIntLiteral(u)
  {
  }

  /** An underscore between digits is skipped: `int("2_24")` is 224. */
  lemma UnderscoredYearParses()
    ensures ParseIntText("2_24") == Some(224)
  {
    var a := "2_24";
    assert AsciiDigits(a) == a;
    assert DigitRun(a) && DropUnderscores(a) == "224";
    ValueOf224();
    UnsignedLiteral(a, 224);
  }

  /** A leading zero is allowed: `int("05")` is 5. */
  lemma LeadingZeroParses()
    ensures ParseIntText("05") == Some(5)
  {
    var b := "05";
    assert AsciiDigits(b) == b;
    assert DecimalValue(b) == 5 by {
      assert b[..1] == "0" && |"0"[..0]| == 0;
    }
    UnsignedLiteral(b, 5);
  }

  lemma ValueOf224()
    ensures AllDigits("224") && DecimalValue("224") == 224
  {
    assert "224"[..2] == "22" && "22"[..1] == "2" && |"2"[..0]| == 0;
  }

  /** An unsigned literal reads as the value of its digits. */
  lemma UnsignedLiteral(t: string, v: int)
    requires |t| > 0 && t[0] != '-' && t[0] != '+'
    requires forall i :: 0 <= i < |t| ==> !IntSpace(t[i])
    requires DigitRun(AsciiDigits(t)) && |DropUnderscores(AsciiDigits(t))| <= MaxStrDigits
    requires AllDigits(DropUnderscores(AsciiDigits(t))) && DecimalValue(DropUnderscores(AsciiDigits(t))) == v
    ensures ParseIntText(t) == Some(v)
  {
    NoSpaceStrip(t);
  }

  /** A plain decimal literal of more than `MaxStrDigits` digits is refused. */
  lemma LongLiteralRefused(d: string)
    requires AllDigits(d) && |d| > MaxStrDigits
    ensures ParseIntText(d) == None
  {
    assert IntStrip(d) == d by {
      NoSpaceStrip(d);
    }
    assert d[0] != '-' && d[0] != '+';
    assert |DropUnderscores(AsciiDigits(d))| > MaxStrDigits by {
      AsciiDigitsOfDigits(d);
      DigitsAreDigitRun(d);
    }
  }

  /** The characters of a text `int()` accepts: whitespace, a sign, an
      underscore or a decimal digit of some script. */
  predicate IntTextChar(ch: char) {
    IntSpace(ch) || ch == '+' || ch == '-' || ch == '_' || DecimalOf(ch).Some?
  }

  lemma ParsedTextChars(s: string)
    requires ParseIntText(s).Some?
    ensures forall i :: 0 <= i < |s| ==> IntTextChar(s[i])
  {
    var t := IntStrip(s);
    LiteralChars(t);
    forall i | 0 <= i < |s| ensures IntTextChar(s[i]) {
      if !IntSpace(s[i]) {
        StripKeeps(s, i);
        var j :| 0 <= j < |t| && t[j] == s[i];
      }
    }
  }

  lemma LiteralChars(t: string)
    requires ParseIntLiteral(t).Some?
    ensures forall j :: 0 <= j < |t| ==> IntTextChar(t[j])
  {
    var sign := if t[0] == '-' || t[0] == '+' then 1 else 0;
    var body := t[sign..];
    DigitRunChars(AsciiDigits(body));
    forall j | sign <= j < |t| ensures IntTextChar(t[j]) {
      assert AsciiDigits(body)[j - sign] == match DecimalOf(t[j]) case Some(d) => DigitChar(d) case None => t[j];
    }
  }

  /** Every character of a text that is not whitespace is kept by `strip`. */
  lemma StripKeeps(s: string, i: int)
    requires 0 <= i < |s| && !IntSpace(s[i])
    ensures s[i] in IntStrip(s)
  {
    var u := IntStripStart(s);
    var t := IntStripEnd(u);
    var k := |s| - |u|;
    assert k <= i by {
      if i < k {
        assert false;
      }
    }
    assert s[i] == u[i - k];
    assert i - k < |t| by {
      if i - k >= |t| {
        assert false;
      }
    }
    assert t[i - k] == s[i];
  }

  lemma NoSpaceStrip(s: string)
    requires forall i :: 0 <= i < |s| ==> !IntSpace(s[i])
    ensures IntStrip(s) == s
  {
    assert IntStripStart(s) == s;
  }

  /** `int(str(i)) == i`: the routes read back every integer they print
      (`str()` itself refuses an integer of more than `MaxStrDigits` digits). */
  lemma ParseIntOfIntToString(i: int)
    requires |NatToString(if i < 0 then -i else i)| <= MaxStrDigits
    ensures ParseIntText(IntToString(i)) == Some(i)
  {
    var t := IntToString(i);
    assert IntStrip(t) == t by {
      IntToStringHasNoSpace(i);
      NoSpaceStrip(t);
    }
    ParseIntLiteralOfIntToString(i);
  }

  lemma IntToStringHasNoSpace(i: int)
    ensures forall k :: 0 <= k < |IntToString(i)| ==> !IntSpace(IntToString(i)[k])
  {
    var t := IntToString(i);
    var n := if i < 0 then -i else i;
    var digits := NatToString(n);
    assert t == if i < 0 then "-" + digits else digits;
    forall k | 0 <= k < |t| ensures !IntSpace(t[k]) {
      if i < 0 && k > 0 {
        assert t[k] == digits[k - 1];
      }
    }
  }

  lemma ParseIntLiteralOfIntToString(i: int)
    requires |NatToString(if i < 0 then -i else i)| <= MaxStrDigits
    ensures ParseIntLiteral(IntToString(i)) == Some(i)
  {
    var t := IntToString(i);
    var n := if i < 0 then -i else i;
    var digits := NatToString(n);
    DigitsAreDigitRun(digits);
    AsciiDigitsOfDigits(digits);
    DecimalValueOfNatToString(n);
    if i < 0 {
      assert t[0] == '-' && t[1..] == digits;
    } else {
      assert t == digits && IsDigit(t[0]);
    }
  }

  lemma DigitsAreDigitRun(d: string)
    requires |d| >= 1 && AllDigits(d)
    ensures DigitRun(d) && DropUnderscores(d) == d
  {
  }

  /** `int()` ignores whitespace before and after the digits. */
  lemma ParseIntIgnoresPadding(pre: string, i: int, post: string)
    requires forall k :: 0 <= k < |pre| ==> IntSpace(pre[k])
    requires forall k :: 0 <= k < |post| ==> IntSpace(post[k])
    requires |NatToString(if i < 0 then -i else i)| <= MaxStrDigits
    ensures ParseIntText(pre + IntToString(i) + post) == Some(i)
  {
    var t := IntToString(i);
    ParseIntOfIntToString(i);
    IntToStringEnds(i);
    StripAround(pre, t, post);
  }

  lemma IntToStringEnds(i: int)
    ensures !IntSpace(IntToString(i)[0]) && !IntSpace(IntToString(i)[|IntToString(i)| - 1])
  {
    if i < 0 {
      var d := NatToString(-i);
      assert IntToString(i)[|IntToString(i)| - 1] == d[|d| - 1];
    }
  }

  lemma {:induction false} StripAround(pre: string, t: string, post: string)
    requires forall k :: 0 <= k < |pre| ==> IntSpace(pre[k])
    requires forall k :: 0 <= k < |post| ==> IntSpace(post[k])
    requires |t| >= 1 && !IntSpace(t[0]) && !IntSpace(t[|t| - 1])
    ensures IntStrip(pre + t + post) == IntStrip(t)
  {
    var s := pre + t + post;
    StripStartSkips(pre, t + post);
    assert pre + (t + post) == s;
    assert IntStripStart(t + post) == t + post;
    StripEndSkips(t, post);
    assert IntStripStart(t) == t;
  }

  lemma {:induction false} StripStartSkips(pad: string, rest: string)
    requires forall k :: 0 <= k < |pad| ==> IntSpace(pad[k])
    ensures IntStripStart(pad + rest) == IntStripStart(rest)
    decreases |pad|
  {
    if |pad| > 0 {
      assert (pad + rest)[1..] == pad[1..] + rest;
      StripStartSkips(pad[1..], rest);
    } else {
      assert pad + rest == rest;
    }
  }

  lemma {:induction false} StripEndSkips(t: string, pad: string)
    requires forall k :: 0 <= k < |pad| ==> IntSpace(pad[k])
    ensures IntStripEnd(t + pad) == IntStripEnd(t)
    decreases |pad|
  {
    if |pad| > 0 {
      assert (t + pad)[..|t + pad| - 1] == t + pad[..|pad| - 1];
      StripEndSkips(t, pad[..|pad| - 1]);
    } else {
      assert t + pad == t;
    }
  }
}

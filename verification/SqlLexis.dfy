/**
 How one identifier or one value is rendered as SQL text (internal/reverse/generator.go), and
 how MySQL reads such text back: the lexical rules of sections 9.1.1 (strings), 9.1.4
 (hexadecimal literals) and 9.2 (quoted identifiers) of the MySQL 8.0 Reference Manual.
 Every character stands for one byte.
 */
module SqlLexis {
  import opened Base
  import opened Values

  // ---------- rendering ----------

  function Double(s: string, c: char): string {
    if s == "" then "" else (if s[0] == c then [c, c] else [s[0]]) + Double(s[1..], c)
  }

  function QuoteIdent(s: string): string {
    "`" + Double(s, '`') + "`"
  }

  function DigitChar(d: nat): (c: char)
    requires d < 10
    ensures '0' <= c <= '9'
  {
    '0' + d as char
  }

  function NatText(n: nat): (s: string)
    ensures s != "" && forall i :: 0 <= i < |s| ==> '0' <= s[i] <= '9'
  {
    if n < 10 then [DigitChar(n)] else NatText(n / 10) + [DigitChar(n % 10)]
  }

  function IntText(n: int): string {
    if n < 0 then "-" + NatText(-n) else NatText(n)
  }

  function HexDigit(d: nat): char
    requires d < 16
  {
    if d < 10 then '0' + d as char else 'a' + (d - 10) as char
  }

  function HexText(b: seq<Byte>): string {
    if b == [] then "" else [HexDigit(b[0] / 16), HexDigit(b[0] % 16)] + HexText(b[1..])
  }

  // n in at least width digits.
  function Pad(n: nat, width: nat): (s: Digits) {
    if width == 0 then "" else Pad(n / 10, width - 1) + [DigitChar(n % 10)]
  }

  function TrimRight(s: string, c: char): string {
    if s != "" && s[|s| - 1] == c then TrimRight(s[..|s| - 1], c) else s
  }

  // Fields a (4 wide), b and c (2 wide) with a separator between neighbours.
  function Fields(a: string, b: string, c: string, sep: char): string {
    a + [sep] + b + [sep] + c
  }

  function DateText(t: Timestamp): string {
    Fields(Pad(t.year, 4), Pad(t.month, 2), Pad(t.day, 2), '-')
  }

  function ClockText(t: Timestamp): string {
    Fields(Pad(t.hour, 2), Pad(t.minute, 2), Pad(t.second, 2), ':')
  }

  function SecondsText(t: Timestamp): string {
    DateText(t) + " " + ClockText(t)
  }

  function TimeText(t: Timestamp): string {
    TrimRight(TrimRight(SecondsText(t) + "." + Pad(t.nanos / 1000, 6), '0'), '.')
  }

  function Fraction(frac: Digits): string {
    if frac == "" then "" else "." + frac
  }

  function FormatValue(v: Value): string {
    match v
    case Null => "NULL"
    case Int(n) => IntText(n)
    case Decimal(neg, whole, frac) =>
      (if neg then "-" else "") + NatText(whole) + Fraction(frac)
    case Time(t) => "'" + TimeText(t) + "'"
    case Bytes(b) => "X'" + HexText(b) + "'"
    case Text(s) => "'" + Double(Double(s, '\\'), '\'') + "'"
    case Bool(b) => if b then "1" else "0"
    case Other(text) => "'" + text + "'"
  }

  // ---------- reading ----------

  datatype Literal =
    | LNull
    | LNumber(neg: bool, whole: nat, frac: string)
    | LString(s: string)
    | LHex(bytes: seq<Byte>)

  type Parsed<T> = Option<(T, string)>

  // The rest of a quoted identifier, after its opening backtick.
  function ReadIdentBody(s: string): Parsed<string> {
    if s == "" then None
    else if s[0] != '`' then
      match ReadIdentBody(s[1..])
      case None => None
      case Some((v, r)) => Some(([s[0]] + v, r))
    else if |s| > 1 && s[1] == '`' then
      match ReadIdentBody(s[2..])
      case None => None
      case Some((v, r)) => Some(("`" + v, r))
    else Some(("", s[1..]))
  }

  function ReadIdent(s: string): Parsed<string> {
    if s != "" && s[0] == '`' then ReadIdentBody(s[1..]) else None
  }

  // What a backslash followed by c stands for (table 9.1).
  function Unescape(c: char): (s: string)
    ensures 1 <= |s| <= 2
    ensures |s| == 2 <==> c == '%' || c == '_'
    ensures |s| == 2 ==> s == ['\\', c]
  {
    match c
    case '0' => ['\0']
    case 'b' => ['\U{08}']
    case 'n' => ['\n']
    case 'r' => ['\r']
    case 't' => ['\t']
    case 'Z' => ['\U{1A}']
    case '%' => ['\\', '%']
    case '_' => ['\\', '_']
    case _ => [c]
  }

  // The rest of a quoted string, after its opening quote.
  function ReadStringBody(s: string): Parsed<string> {
    if s == "" then None
    else if s[0] == '\'' then
      if |s| > 1 && s[1] == '\'' then
        match ReadStringBody(s[2..])
        case None => None
        case Some((v, r)) => Some(("'" + v, r))
      else Some(("", s[1..]))
    else if s[0] == '\\' then
      if |s| == 1 then None else
      match ReadStringBody(s[2..])
      case None => None
      case Some((v, r)) => Some((Unescape(s[1]) + v, r))
    else
      match ReadStringBody(s[1..])
      case None => None
      case Some((v, r)) => Some(([s[0]] + v, r))
  }

  function HexValue(c: char): (r: Option<nat>)
    ensures r.Some? ==> r.value < 16
  {
    if '0' <= c <= '9' then Some((c - '0') as nat)
    else if 'a' <= c <= 'f' then Some((c - 'a') as nat + 10)
    else if 'A' <= c <= 'F' then Some((c - 'A') as nat + 10)
    else None
  }

  // The rest of a hexadecimal literal, after X'.
  function ReadHexBody(s: string): Parsed<seq<Byte>> {
    if s == "" then None
    else if s[0] == '\'' then Some(([], s[1..]))
    else if |s| == 1 then None
    else match (HexValue(s[0]), HexValue(s[1]), ReadHexBody(s[2..]))
      case (Some(h), Some(l), Some((v, r))) => var b: Byte := 16 * h + l; Some(([b] + v, r))
      case _ => None
  }

  predicate IsDigit(c: char) {
    '0' <= c <= '9'
  }

  function DigitRun(s: string): (n: nat)
    ensures n <= |s|
    ensures forall i :: 0 <= i < n ==> IsDigit(s[i])
    ensures n < |s| ==> !IsDigit(s[n])
  {
    if s == "" || !IsDigit(s[0]) then 0 else 1 + DigitRun(s[1..])
  }

  function DigitsValue(s: Digits): nat {
    if s == "" then 0 else 10 * DigitsValue(s[..|s| - 1]) + (s[|s| - 1] - '0') as nat
  }

  function ReadFraction(s: string): (string, string) {
    if s != "" && s[0] == '.' then
      var m := DigitRun(s[1..]);
      (s[1..][..m], s[1..][m..])
    else ("", s)
  }

  function ReadNumber(s: string, neg: bool): Parsed<Literal> {
    var n := DigitRun(s);
    if n == 0 then None
    else
      var (frac, rest) := ReadFraction(s[n..]);
      Some((LNumber(neg, DigitsValue(s[..n]), frac), rest))
  }

  function ReadLiteral(s: string): Parsed<Literal> {
    if s == "" then None
    else if "NULL" <= s then Some((LNull, s[4..]))
    else if s[0] == '\'' then
      match ReadStringBody(s[1..])
      case None => None
      case Some((v, r)) => Some((LString(v), r))
    else if "X'" <= s then
      match ReadHexBody(s[2..])
      case None => None
      case Some((v, r)) => Some((LHex(v), r))
    else if s[0] == '-' then ReadNumber(s[1..], true)
    else ReadNumber(s, false)
  }

  // ---------- what a value is meant to denote ----------

  function Denote(v: Value): (l: Literal)
    ensures l.LNull? <==> v.Null?
  {
    match v
    case Null => LNull
    case Int(n) => LNumber(n < 0, if n < 0 then -n else n, "")
    case Decimal(neg, whole, frac) => LNumber(neg, whole, frac)
    case Time(t) => LString(TimeText(t))
    case Bytes(b) => LHex(b)
    case Text(s) => LString(s)
    case Bool(b) => LNumber(false, if b then 1 else 0, "")
    case Other(text) => LString(text)
  }

  // Text that a quoted string may hold without any escaping: no quote, and no backslash
  // except as the first half of \% or \_, which stand for themselves.
  predicate Plain(s: string) {
    s == "" ||
    if s[0] == '\\' then |s| > 1 && (s[1] == '%' || s[1] == '_') && Plain(s[2..])
    else s[0] != '\'' && Plain(s[1..])
  }

  // Values of every type the generator escapes, and of other types only when plain.
  predicate Printable(v: Value) {
    v.Other? ==> Plain(v.text)
  }

  // What may follow a value or an identifier in the three statement forms.
  predicate Follows(r: string) {
    r == "" || r[0] == ',' || r[0] == ')' || r[0] == ' '
  }

  // ---------- round trips ----------

  lemma {:induction false} IdentBodyRoundTrip(s: string, rest: string)
    requires rest == "" || rest[0] != '`'
    ensures ReadIdentBody(Double(s, '`') + "`" + rest) == Some((s, rest))
  {
    var text := Double(s, '`') + "`" + rest;
    if s == "" {
      assert text == "`" + rest;
    } else {
      IdentBodyRoundTrip(s[1..], rest);
      var tail := Double(s[1..], '`') + "`" + rest;
      if s[0] == '`' {
        assert text == ['`', '`'] + tail;
        assert text[2..] == tail;
      } else {
        assert text == [s[0]] + tail;
        assert text[1..] == tail;
      }
      assert s == [s[0]] + s[1..];
    }
  }

  lemma IdentRoundTrip(s: string, rest: string)
    requires rest == "" || rest[0] != '`'
    ensures ReadIdent(QuoteIdent(s) + rest) == Some((s, rest))
  {
    IdentBodyRoundTrip(s, rest);
    assert (QuoteIdent(s) + rest)[1..] == Double(s, '`') + "`" + rest;
  }

  lemma {:induction false} DoubleAppend(a: string, b: string, c: char)
    ensures Double(a + b, c) == Double(a, c) + Double(b, c)
  {
    if a == "" {
      assert a + b == b;
    } else {
      DoubleAppend(a[1..], b, c);
      assert (a + b)[1..] == a[1..] + b;
      Assoc(if a[0] == c then [c, c] else [a[0]], Double(a[1..], c), Double(b, c));
    }
  }

  lemma EscapeStep(s: string)
    requires s != ""
    ensures Double(Double(s, '\\'), '\'') ==
      (if s[0] == '\\' then ['\\', '\\'] else if s[0] == '\'' then ['\'', '\''] else [s[0]])
      + Double(Double(s[1..], '\\'), '\'')
  {
    var head := if s[0] == '\\' then ['\\', '\\'] else [s[0]];
    DoubleAppend(head, Double(s[1..], '\\'), '\'');
    if s[0] == '\\' {
      assert head[1..] == ['\\'];
    } else {
      assert head[1..] == "";
    }
    assert Double(head, '\'') == if s[0] == '\'' then ['\'', '\''] else head;
  }

  lemma ReadBodyStep(c: char, tail: string, v: string, rest: string)
    requires ReadStringBody(tail) == Some((v, rest))
    ensures ReadStringBody((if c == '\\' || c == '\'' then [c, c] else [c]) + tail) == Some(([c] + v, rest))
  {
    assert ([c, c] + tail)[2..] == tail;
    assert ([c] + tail)[1..] == tail;
  }

  lemma {:induction false} StringBodyRoundTrip(s: string, rest: string)
    requires rest == "" || rest[0] != '\''
    ensures ReadStringBody(Double(Double(s, '\\'), '\'') + "'" + rest) == Some((s, rest))
  {
    if s == "" {
      assert "" + "'" + rest == "'" + rest;
    } else {
      var c, tail := s[0], Double(Double(s[1..], '\\'), '\'');
      var head := if c == '\\' || c == '\'' then [c, c] else [c];
      StringBodyRoundTrip(s[1..], rest);
      EscapeStep(s);
      ReadBodyStep(c, tail + "'" + rest, s[1..], rest);
      Assoc(head, tail, "'");
      Assoc(head, tail + "'", rest);
      assert s == [c] + s[1..];
    }
  }

  // Reading never produces more characters than it consumes, and as many only from plain text.
  lemma {:induction false} ReadShrinks(s: string)
    requires ReadStringBody(s).Some?
    ensures var (v, r) := ReadStringBody(s).value; |v| + 1 + |r| <= |s|
    ensures var (v, r) := ReadStringBody(s).value;
      |v| + 1 + |r| == |s| ==> Plain(s[..|v|])
  {
    var (v, r) := ReadStringBody(s).value;
    if s[0] == '\'' {
      if |s| > 1 && s[1] == '\'' { ReadShrinks(s[2..]); }
    } else if s[0] == '\\' {
      ReadShrinks(s[2..]);
      if |v| + 1 + |r| == |s| {
        assert s[..|v|][2..] == s[2..][..|v| - 2];
      }
    } else {
      ReadShrinks(s[1..]);
      if |v| + 1 + |r| == |s| {
        assert s[..|v|][1..] == s[1..][..|v| - 1];
      }
    }
  }

  lemma {:induction false} PlainReadsBack(s: string, rest: string)
    requires Plain(s)
    requires rest == "" || rest[0] != '\''
    ensures ReadStringBody(s + "'" + rest) == Some((s, rest))
  {
    var text := s + "'" + rest;
    if s == "" {
      assert text == "'" + rest;
    } else if s[0] == '\\' {
      PlainReadsBack(s[2..], rest);
      assert text[2..] == s[2..] + "'" + rest;
      assert text[0] == s[0] && text[1] == s[1];
      assert s == ['\\', s[1]] + s[2..];
    } else {
      PlainReadsBack(s[1..], rest);
      assert text[1..] == s[1..] + "'" + rest;
      assert s == [s[0]] + s[1..];
    }
  }

  /** A value of a type the generator does not know is printed unescaped: it reads back as
      itself exactly when its text is plain. */
  lemma UnescapedReadsBackIff(s: string, rest: string)
    requires rest == "" || rest[0] != '\''
    ensures ReadLiteral(FormatValue(Other(s)) + rest) == Some((LString(s), rest)) <==> Plain(s)
  {
    var body := s + "'" + rest;
    assert FormatValue(Other(s)) + rest == "'" + body;
    ReadQuoted(body);
    if Plain(s) {
      PlainReadsBack(s, rest);
    }
    if ReadStringBody(body) == Some((s, rest)) {
      ReadShrinks(body);
      assert body[..|s|] == s;
    }
  }

  /** Two quotes, printed by a value of a type outside the generator's list (a struct, say), read back as one. */
  lemma UnescapedMisread(rest: string)
    requires rest == "" || rest[0] != '\''
    ensures ReadLiteral(FormatValue(Other("''")) + rest) == Some((LString("'"), rest))
  {
    var body := "''" + ("'" + rest);
    assert FormatValue(Other("''")) + rest == "'" + body;
    ReadQuoted(body);
    assert ReadStringBody("'" + rest) == Some(("", rest)) by { assert ("'" + rest)[1..] == rest; }
    ReadBodyStep('\'', "'" + rest, "", rest);
    assert ['\'', '\''] == "''" && ['\''] + "" == "'";
  }

  lemma ReadQuoted(body: string)
    ensures ReadLiteral("'" + body) ==
      match ReadStringBody(body) case None => None case Some((v, r)) => Some((LString(v), r))
  {
    assert ("'" + body)[1..] == body;
  }

  lemma ReadHexPair(h: char, l: char, tail: string)
    requires HexValue(h).Some? && HexValue(l).Some?
    requires h != '\''
    requires ReadHexBody(tail).Some?
    ensures var (v, r) := ReadHexBody(tail).value;
      ReadHexBody([h, l] + tail) == Some(([16 * HexValue(h).value + HexValue(l).value] + v, r))
  {
    assert ([h, l] + tail)[2..] == tail;
  }

  lemma {:induction false} HexRoundTrip(b: seq<Byte>, rest: string)
    ensures ReadHexBody(HexText(b) + "'" + rest) == Some((b, rest))
  {
    if b == [] {
      assert HexText(b) + "'" + rest == "'" + rest;
    } else {
      var high, low := b[0] / 16, b[0] % 16;
      HexDigitValue(high);
      HexDigitValue(low);
      HexRoundTrip(b[1..], rest);
      var tail := HexText(b[1..]) + "'" + rest;
      Assoc([HexDigit(high), HexDigit(low)], HexText(b[1..]), "'");
      Assoc([HexDigit(high), HexDigit(low)], HexText(b[1..]) + "'", rest);
      ReadHexPair(HexDigit(high), HexDigit(low), tail);
      assert 16 * high + low == b[0];
      assert b == [b[0]] + b[1..];
    }
  }

  lemma HexDigitValue(d: nat)
    requires d < 16
    ensures HexValue(HexDigit(d)) == Some(d)
    ensures HexDigit(d) != '\''
  {
  }

  lemma {:induction false} NatRoundTrip(n: nat)
    ensures DigitsValue(NatText(n)) == n
  {
    if n < 10 {
      assert NatText(n)[..0] == "";
    } else {
      NatRoundTrip(n / 10);
      assert NatText(n)[..|NatText(n)| - 1] == NatText(n / 10);
    }
  }

  lemma {:induction false} DigitRunOf(s: Digits, rest: string)
    requires rest == "" || !IsDigit(rest[0])
    ensures DigitRun(s + rest) == |s|
  {
    if s == "" {
      assert s + rest == rest;
    } else {
      DigitRunOf(s[1..], rest);
      assert (s + rest)[1..] == s[1..] + rest;
    }
  }

  lemma SplitDigits(digits: Digits, tail: string)
    requires tail == "" || !IsDigit(tail[0])
    ensures var t := digits + tail;
      DigitRun(t) == |digits| && t[..|digits|] == digits && t[|digits|..] == tail
  {
    DigitRunOf(digits, tail);
  }

  lemma FractionRoundTrip(frac: Digits, rest: string)
    requires Follows(rest)
    ensures ReadFraction(Fraction(frac) + rest) == (frac, rest)
  {
    if frac == "" {
      assert Fraction(frac) + rest == rest;
    } else {
      assert (Fraction(frac) + rest)[1..] == frac + rest;
      SplitDigits(frac, rest);
    }
  }

  lemma UnsignedRoundTrip(digits: Digits, frac: Digits, rest: string, neg: bool)
    requires digits != ""
    requires Follows(rest)
    ensures ReadNumber(digits + (Fraction(frac) + rest), neg) == Some((LNumber(neg, DigitsValue(digits), frac), rest))
  {
    var tail := Fraction(frac) + rest;
    assert tail == "" || !IsDigit(tail[0]);
    SplitDigits(digits, tail);
    FractionRoundTrip(frac, rest);
  }

  function NumberText(neg: bool, whole: nat, frac: Digits): string {
    (if neg then "-" else "") + NatText(whole) + Fraction(frac)
  }

  lemma NumberRoundTrip(neg: bool, whole: nat, frac: Digits, rest: string)
    requires Follows(rest)
    ensures ReadLiteral(NumberText(neg, whole, frac) + rest) == Some((LNumber(neg, whole, frac), rest))
  {
    var digits: Digits := NatText(whole);
    NatRoundTrip(whole);
    UnsignedRoundTrip(digits, frac, rest, neg);
    Regroup(if neg then "-" else "", digits, Fraction(frac), rest);
    NumberDispatch(digits + (Fraction(frac) + rest));
  }

  lemma Regroup(a: string, b: string, c: string, d: string)
    ensures a + b + c + d == a + (b + (c + d))
    ensures a == "" ==> a + b + c + d == b + (c + d)
  {
  }

  lemma NumberDispatch(t: string)
    requires t != "" && IsDigit(t[0])
    ensures ReadLiteral(t) == ReadNumber(t, false)
    ensures ReadLiteral("-" + t) == ReadNumber(t, true)
  {
    assert ("-" + t)[1..] == t;
  }

  lemma NumberLiteral(v: Value, rest: string)
    requires v.Int? || v.Decimal? || v.Bool?
    requires Follows(rest)
    ensures ReadLiteral(FormatValue(v) + rest) == Some((Denote(v), rest))
  {
    var l := Denote(v);
    assert FormatValue(v) == NumberText(l.neg, l.whole, l.frac);
    NumberRoundTrip(l.neg, l.whole, l.frac, rest);
  }

  lemma TimeLiteral(t: Timestamp, rest: string)
    requires Follows(rest)
    ensures ReadLiteral(FormatValue(Time(t)) + rest) == Some((Denote(Time(t)), rest))
  {
    TimeTextIsPlain(t);
    assert FormatValue(Time(t)) == FormatValue(Other(TimeText(t)));
    UnescapedReadsBackIff(TimeText(t), rest);
  }

  lemma NullLiteral(rest: string)
    requires Follows(rest)
    ensures ReadLiteral(FormatValue(Null) + rest) == Some((Denote(Null), rest))
  {
    assert (FormatValue(Null) + rest)[4..] == rest;
  }

  lemma HexPrefix(t: string)
    ensures ReadLiteral("X'" + t) == match ReadHexBody(t) case None => None case Some((v, r)) => Some((LHex(v), r))
  {
    var text := "X'" + t;
    assert text[2..] == t && text[0] == 'X' && text[1] == '\'';
  }

  lemma HexLiteral(b: seq<Byte>, rest: string)
    ensures ReadLiteral(FormatValue(Bytes(b)) + rest) == Some((LHex(b), rest))
  {
    HexRoundTrip(b, rest);
    HexPrefix(HexText(b) + "'" + rest);
    Assoc("X'", HexText(b), "'");
    Assoc("X'", HexText(b) + "'", rest);
  }

  lemma StringLiteral(s: string, rest: string)
    requires Follows(rest)
    ensures ReadLiteral(FormatValue(Text(s)) + rest) == Some((LString(s), rest))
  {
    var body := Double(Double(s, '\\'), '\'') + "'" + rest;
    assert FormatValue(Text(s)) + rest == "'" + body;
    StringBodyRoundTrip(s, rest);
    ReadQuoted(body);
  }

  /** Every rendered value reads back as the literal it denotes, and the reader stops exactly
      where the value ends. */
  lemma ValueRoundTrip(v: Value, rest: string)
    requires Printable(v)
    requires Follows(rest)
    ensures ReadLiteral(FormatValue(v) + rest) == Some((Denote(v), rest))
  {
    match v
    case Null => NullLiteral(rest);
    case Time(t) => TimeLiteral(t, rest);
    case Bytes(b) => HexLiteral(b, rest);
    case Text(s) => StringLiteral(s, rest);
    case Other(s) => UnescapedReadsBackIff(s, rest);
    case _ => NumberLiteral(v, rest);
  }

  // ---------- instants ----------

  predicate TimeChar(c: char) {
    IsDigit(c) || c == '-' || c == ' ' || c == ':' || c == '.'
  }

  lemma {:induction false} TrimRightPrefix(s: string, c: char)
    ensures TrimRight(s, c) <= s
  {
    if s != "" && s[|s| - 1] == c { TrimRightPrefix(s[..|s| - 1], c); }
  }

  lemma {:induction false} TimeCharsPlain(s: string)
    requires forall i :: 0 <= i < |s| ==> TimeChar(s[i])
    ensures Plain(s)
  {
    if s != "" {
      TimeCharsPlain(s[1..]);
    }
  }

  lemma TimeTextIsPlain(t: Timestamp)
    ensures Plain(TimeText(t))
  {
    var full := SecondsText(t) + "." + Pad(t.nanos / 1000, 6);
    assert forall i :: 0 <= i < |full| ==> TimeChar(full[i]);
    TrimRightPrefix(full, '0');
    TrimRightPrefix(TrimRight(full, '0'), '.');
    TimeCharsPlain(TimeText(t));
  }

  // Right-padding with zeros to the given width, as MySQL completes a fraction.
  function FillRight(s: string, width: nat): string
    decreases width - |s|
  {
    if |s| >= width then s else FillRight(s + "0", width)
  }

  // Splits s into three runs of digits of widths w, 2 and 2 with sep between neighbours.
  function ReadFields(s: string, w: nat, sep: char): Option<(nat, nat, nat)> {
    if |s| == w + 6 && s[w] == s[w + 3] == sep
      && AllDigits(s[..w]) && AllDigits(s[w + 1..w + 3]) && AllDigits(s[w + 4..])
    then Some((DigitsValue(s[..w]), DigitsValue(s[w + 1..w + 3]), DigitsValue(s[w + 4..])))
    else None
  }

  predicate AllDigits(s: string) {
    forall i :: 0 <= i < |s| ==> IsDigit(s[i])
  }

  // How MySQL reads 'YYYY-MM-DD hh:mm:ss[.ffffff]' (section 9.1.3).
  function ReadTime(s: string): Option<Instant> {
    if |s| < 19 || s[10] != ' ' || (|s| > 19 && s[19] != '.') then None else
    var frac := FillRight(if |s| == 19 then "" else s[20..], 6);
    match (ReadFields(s[..10], 4, '-'), ReadFields(s[11..19], 2, ':'))
    case (Some((y, mo, d)), Some((h, mi, sec))) =>
      if |frac| == 6 && AllDigits(frac) then Some(Instant(y, mo, d, h, mi, sec, DigitsValue(frac) * 1000)) else None
    case _ => None
  }

  lemma {:induction false} PadRoundTrip(n: nat, width: nat)
    ensures |Pad(n, width)| == width
    ensures n < Power10(width) ==> DigitsValue(Pad(n, width)) == n
  {
    if width > 0 {
      PadRoundTrip(n / 10, width - 1);
      assert Pad(n, width)[..width - 1] == Pad(n / 10, width - 1);
    }
  }

  function Power10(k: nat): nat {
    if k == 0 then 1 else 10 * Power10(k - 1)
  }

  lemma {:induction false} TrimThenFill(s: string)
    ensures FillRight(TrimRight(s, '0'), |s|) == s
  {
    TrimRightPrefix(s, '0');
    if s != "" && s[|s| - 1] == '0' {
      var short := s[..|s| - 1];
      TrimThenFill(short);
      FillFurther(TrimRight(short, '0'), |short|);
      assert short + "0" == s;
    } else {
      assert TrimRight(s, '0') == s;
    }
  }

  lemma {:induction false} FillFurther(s: string, width: nat)
    requires |s| <= width
    ensures FillRight(s, width + 1) == FillRight(s, width) + "0"
    decreases width - |s|
  {
    if |s| < width { FillFurther(s + "0", width); }
  }

  lemma {:induction false} TrimStopsAt(s: string, tail: string, c: char)
    requires s != "" && s[|s| - 1] != c
    ensures TrimRight(s + tail, c) == s + TrimRight(tail, c)
  {
    if tail == "" {
      assert s + tail == s;
    } else if tail[|tail| - 1] == c {
      TrimStopsAt(s, tail[..|tail| - 1], c);
      assert (s + tail)[..|s + tail| - 1] == s + tail[..|tail| - 1];
    } else {
      assert TrimRight(tail, c) == tail;
    }
  }

  lemma FieldsRoundTrip(a: Digits, b: Digits, c: Digits, sep: char)
    requires |b| == |c| == 2
    ensures |Fields(a, b, c, sep)| == |a| + 6
    ensures ReadFields(Fields(a, b, c, sep), |a|, sep) == Some((DigitsValue(a), DigitsValue(b), DigitsValue(c)))
    ensures Fields(a, b, c, sep)[|a| + 5] == c[1]
  {
    var s := Fields(a, b, c, sep);
    assert s[..|a|] == a;
    assert s[|a| + 1..|a| + 3] == b;
    assert s[|a| + 4..] == c;
  }

  lemma DateRoundTrip(t: Timestamp)
    ensures var s := DateText(t);
      |s| == 10 && ReadFields(s, 4, '-') == Some((t.year, t.month, t.day))
  {
    Powers();
    PadRoundTrip(t.year, 4);
    PadRoundTrip(t.month, 2);
    PadRoundTrip(t.day, 2);
    FieldsRoundTrip(Pad(t.year, 4), Pad(t.month, 2), Pad(t.day, 2), '-');
  }

  lemma ClockRoundTrip(t: Timestamp)
    ensures var s := ClockText(t);
      |s| == 8 && ReadFields(s, 2, ':') == Some((t.hour, t.minute, t.second)) && IsDigit(s[7])
  {
    Powers();
    PadRoundTrip(t.hour, 2);
    PadRoundTrip(t.minute, 2);
    PadRoundTrip(t.second, 2);
    FieldsRoundTrip(Pad(t.hour, 2), Pad(t.minute, 2), Pad(t.second, 2), ':');
  }

  lemma Powers()
    ensures Power10(2) == 100 && Power10(4) == 10000 && Power10(6) == 1_000_000
  {
    assert Power10(2) == 100;
    assert Power10(4) == 10000;
  }

  // The trimmed text is the seconds, then a point and the trimmed fraction unless that is empty.
  lemma TrimmedText(secs: string, six: Digits)
    requires secs != "" && IsDigit(secs[|secs| - 1])
    ensures var frac := TrimRight(six, '0');
      TrimRight(TrimRight(secs + "." + six, '0'), '.') == if frac == "" then secs else secs + "." + frac
  {
    var head := secs + ".";
    var frac := TrimRight(six, '0');
    TrimStopsAt(head, six, '0');
    TrimRightPrefix(six, '0');
    if frac == "" {
      assert head + frac == head;
      assert head[..|head| - 1] == secs;
    }
  }

  // The text is the seconds, then a point and the trimmed fraction unless that is empty.
  lemma ReadTimeOf(date: string, clock: string, frac: string, t: Instant)
    requires |date| == 10 && |clock| == 8
    requires ReadFields(date, 4, '-') == Some((t.year, t.month, t.day))
    requires ReadFields(clock, 2, ':') == Some((t.hour, t.minute, t.second))
    requires |FillRight(frac, 6)| == 6 && AllDigits(FillRight(frac, 6))
    requires 1000 * DigitsValue(FillRight(frac, 6)) == t.nanos
    ensures ReadTime(if frac == "" then date + " " + clock else date + " " + clock + "." + frac) == Some(t)
  {
    var s := if frac == "" then date + " " + clock else date + " " + clock + "." + frac;
    assert s[..10] == date;
    assert s[11..19] == clock;
    assert (if |s| == 19 then "" else s[20..]) == frac;
  }

  lemma FractionOf(micros: nat)
    requires micros < 1_000_000
    ensures var six := Pad(micros, 6);
      FillRight(TrimRight(six, '0'), 6) == six && |six| == 6 && AllDigits(six) && DigitsValue(six) == micros
  {
    Powers();
    PadRoundTrip(micros, 6);
    TrimThenFill(Pad(micros, 6));
  }

  // The instant with its fraction cut to whole microseconds.
  function ToMicros(t: Instant): Instant {
    Instant(t.year, t.month, t.day, t.hour, t.minute, t.second, t.nanos / 1000 * 1000)
  }

  /** An instant reads back with its fraction cut to whole microseconds, and nothing else lost. */
  lemma TimeRoundTrip(t: Timestamp)
    ensures ReadTime(TimeText(t)) == Some(ToMicros(t))
  {
    var date, clock, micros := DateText(t), ClockText(t), t.nanos / 1000;
    DateRoundTrip(t);
    ClockRoundTrip(t);
    FractionOf(micros);
    TrimmedText(date + " " + clock, Pad(micros, 6));
    ReadTimeOf(date, clock, TrimRight(Pad(micros, 6), '0'), ToMicros(t));
  }

  // The whole number a literal is written for.
  function Magnitude(l: Literal): int
    requires l.LNumber?
  {
    var n: int := l.whole;
    if l.neg then -n else n
  }

  /** What each value is printed as: itself. Integers keep their value, truth values are 1 and 0, texts and bytes
      keep every character, an instant reads back cut to microseconds, and NULL is nothing else's literal. */
  lemma StandsForItself(v: Value)
    requires Printable(v)
    ensures ReadLiteral(FormatValue(v)) == Some((Denote(v), ""))
    ensures v.Null? <==> Denote(v) == LNull
    ensures v.Int? ==> Denote(v).LNumber? && Magnitude(Denote(v)) == v.n && Denote(v).frac == ""
    ensures v.Bool? ==> Denote(v).LNumber? && Magnitude(Denote(v)) == (if v.b then 1 else 0) && Denote(v).frac == ""
    ensures v.Decimal? ==> Denote(v) == LNumber(v.neg, v.whole, v.frac)
    ensures v.Text? ==> Denote(v) == LString(v.s)
    ensures v.Bytes? ==> Denote(v) == LHex(v.bytes)
    ensures v.Time? ==> Denote(v).LString? && ReadTime(Denote(v).s) == Some(ToMicros(v.t))
  {
    ValueRoundTrip(v, "");
    assert FormatValue(v) + "" == FormatValue(v);
    if v.Time? { TimeRoundTrip(v.t); }
  }
}

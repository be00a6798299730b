/** Ruby's `String#inspect` on a UTF-8 string, as the legacy assertion
    message uses it: the text between double quotes, with `"` and `\`
    backslashed, `#` backslashed where it would start an interpolation
    (`#{`, `#$`, `#@`), the eight control characters Ruby names written
    as `\n \r \t \f \v \b \a \e`, and every other control character
    written as `\uXXXX` with upper-case hex digits.  Its partner is a
    reader of the double-quoted literal it writes. */
module RubyInspect {
  import opened Common

  /** The letter Ruby writes after `\` for a control character it names. */
  function NamedEscape(c: char): Option<char> {
    match c as int
    case 10 => Some('n')
    case 13 => Some('r')
    case 9 => Some('t')
    case 12 => Some('f')
    case 11 => Some('v')
    case 8 => Some('b')
    case 7 => Some('a')
    case 27 => Some('e')
    case _ => None
  }

  /** The control character a named escape letter stands for. */
  function NamedChar(x: char): Option<char> {
    match x
    case 'n' => Some(10 as char)
    case 'r' => Some(13 as char)
    case 't' => Some(9 as char)
    case 'f' => Some(12 as char)
    case 'v' => Some(11 as char)
    case 'b' => Some(8 as char)
    case 'a' => Some(7 as char)
    case 'e' => Some(27 as char)
    case _ => None
  }

  /** The C0 and C1 control characters and DEL, which `inspect` never
      writes as they are. */
  predicate Unprintable(c: char) {
    c as int < 0x20 || 0x7F <= c as int < 0xA0
  }

  /** A character written as itself, whatever follows it. */
  predicate Plain(c: char) {
    c != '"' && c != '\\' && c != '#' && !Unprintable(c)
  }

  predicate StartsInterpolation(c: char) {
    c == '{' || c == '$' || c == '@'
  }

  function HexDigit(d: nat): (c: char)
    requires d < 16
  {
    if d < 10 then ('0' as int + d) as char else ('A' as int + d - 10) as char
  }

  function HexValue(c: char): Option<nat> {
    if '0' <= c <= '9' then Some(c as int - '0' as int)
    else if 'A' <= c <= 'F' then Some(c as int - 'A' as int + 10)
    else if 'a' <= c <= 'f' then Some(c as int - 'a' as int + 10)
    else None
  }

  /** `%04X`. */
  function Hex4(n: nat): (h: string)
    requires n < 0x10000
    ensures |h| == 4
  {
    var r0 := n % 4096;
    var r1 := r0 % 256;
    [HexDigit(n / 4096), HexDigit(r0 / 256), HexDigit(r1 / 16), HexDigit(r1 % 16)]
  }

  /** The value of four hex digits, if they are hex digits. */
  function Unhex4(h: string): Option<nat>
    requires |h| == 4
  {
    match (HexValue(h[0]), HexValue(h[1]), HexValue(h[2]), HexValue(h[3]))
    case (Some(a), Some(b), Some(c), Some(d)) => Some(4096 * a + 256 * b + 16 * c + d)
    case _ => None
  }

  /** How `inspect` writes `c` when `next` follows it. */
  function EscapeChar(c: char, next: Option<char>): (e: string)
    ensures |e| > 0 && (e[0] == c || e[0] == '\\')
  {
    if c == '"' || c == '\\' then ['\\', c]
    else if c == '#' && next.Some? && StartsInterpolation(next.value) then ['\\', c]
    else if NamedEscape(c).Some? then ['\\', NamedEscape(c).value]
    else if Unprintable(c) then "\\u" + Hex4(c as int)
    else [c]
  }

  /** The text between the quotes. */
  function Escaped(s: string): (e: string)
    ensures |s| > 0 ==> |e| > 0 && (e[0] == s[0] || e[0] == '\\')
    decreases |s|
  {
    if |s| == 0 then ""
    else EscapeChar(s[0], if |s| > 1 then Some(s[1]) else None) + Escaped(s[1..])
  }

  /** `String#inspect`. */
  function Quoted(s: string): (q: string)
    ensures |q| >= 2 && q[0] == '"' && q[|q| - 1] == '"'
    ensures Read(q) == Some(s)
  {
    EscapedReadsBack(s);
    assert ("\"" + Escaped(s) + "\"")[1..|Escaped(s)| + 1] == Escaped(s);
    "\"" + Escaped(s) + "\""
  }

  function Prepend(c: char, o: Option<string>): Option<string> {
    if o.Some? then Some([c] + o.value) else None
  }

  /** Reads the inside of a double-quoted Ruby literal written with the
      escapes above.  An unescaped `"`, an interpolation, a dangling `\`
      and an unknown escape are refused. */
  function Unescape(e: string): (o: Option<string>)
    decreases |e|
  {
    if |e| == 0 then Some("")
    else if e[0] == '"' then None
    else if e[0] == '#' && |e| > 1 && StartsInterpolation(e[1]) then None
    else if e[0] != '\\' then Prepend(e[0], Unescape(e[1..]))
    else if |e| < 2 then None
    else
      var x := e[1];
      if x == '"' || x == '\\' || x == '#' then Prepend(x, Unescape(e[2..]))
      else if NamedChar(x).Some? then Prepend(NamedChar(x).value, Unescape(e[2..]))
      else if x == 'u' && |e| >= 6 && Unhex4(e[2..6]).Some? then
        var v := Unhex4(e[2..6]).value;
        if v < 0xD800 || 0xE000 <= v then Prepend(v as char, Unescape(e[6..])) else None
      else None
  }

  /** Reads a double-quoted Ruby literal. */
  function Read(q: string): Option<string> {
    if |q| >= 2 && q[0] == '"' && q[|q| - 1] == '"' then Unescape(q[1..|q| - 1]) else None
  }

  lemma HexDigitValue(d: nat)
    requires d < 16
    ensures HexValue(HexDigit(d)) == Some(d)
  {
  }

  lemma Hex4Value(n: nat)
    requires n < 0x10000
    ensures Unhex4(Hex4(n)) == Some(n)
  {
    var r0 := n % 4096;
    var r1 := r0 % 256;
    HexDigitValue(n / 4096);
    HexDigitValue(r0 / 256);
    HexDigitValue(r1 / 16);
    HexDigitValue(r1 % 16);
  }

  /** Reading one written character back, whatever the written rest
      starts with, as long as it starts as the next character would. */
  lemma ReadOne(c: char, next: Option<char>, rest: string)
    requires |rest| > 0 ==> next.Some? && (rest[0] == next.value || rest[0] == '\\')
    ensures Unescape(EscapeChar(c, next) + rest) == Prepend(c, Unescape(rest))
  {
    if c == '"' || c == '\\' || (c == '#' && next.Some? && StartsInterpolation(next.value)) {
      ReadBackslashed(c, rest);
    } else if NamedEscape(c).Some? {
      ReadNamed(c, rest);
    } else if Unprintable(c) {
      ReadCode(c, rest);
    } else {
      ReadPlain(c, rest);
    }
  }

  lemma ReadBackslashed(c: char, rest: string)
    requires c == '"' || c == '\\' || c == '#'
    ensures Unescape(['\\', c] + rest) == Prepend(c, Unescape(rest))
  {
    assert (['\\', c] + rest)[2..] == rest;
  }

  lemma ReadNamed(c: char, rest: string)
    requires NamedEscape(c).Some?
    ensures Unescape(['\\', NamedEscape(c).value] + rest) == Prepend(c, Unescape(rest))
  {
    assert NamedChar(NamedEscape(c).value) == Some(c);
    assert (['\\', NamedEscape(c).value] + rest)[2..] == rest;
  }

  lemma ReadCode(c: char, rest: string)
    requires Unprintable(c) && NamedEscape(c).None?
    ensures Unescape("\\u" + Hex4(c as int) + rest) == Prepend(c, Unescape(rest))
  {
    var e := "\\u" + Hex4(c as int) + rest;
    Hex4Value(c as int);
    assert e[2..6] == Hex4(c as int) && e[6..] == rest;
    assert e[0] == '\\' && e[1] == 'u' && NamedChar('u').None?;
  }

  lemma ReadPlain(c: char, rest: string)
    requires c != '"' && c != '\\' && NamedEscape(c).None? && !Unprintable(c)
    requires c == '#' ==> |rest| == 0 || !StartsInterpolation(rest[0])
    ensures Unescape([c] + rest) == Prepend(c, Unescape(rest))
  {
    assert ([c] + rest)[1..] == rest;
  }

  /** The text between the quotes reads back as the string. */
  lemma {:induction false} EscapedReadsBack(s: string)
    ensures Unescape(Escaped(s)) == Some(s)
    decreases |s|
  {
    if |s| > 0 {
      EscapedReadsBack(s[1..]);
      ReadOne(s[0], if |s| > 1 then Some(s[1]) else None, Escaped(s[1..]));
      assert [s[0]] + s[1..] == s;
    }
  }

  /** A string of plain characters is written as it is, between quotes. */
  lemma {:induction false} PlainUnchanged(s: string)
    requires forall i :: 0 <= i < |s| ==> Plain(s[i])
    ensures Quoted(s) == "\"" + s + "\""
  {
    PlainEscaped(s);
  }

  lemma {:induction false} PlainEscaped(s: string)
    requires forall i :: 0 <= i < |s| ==> Plain(s[i])
    ensures Escaped(s) == s
    decreases |s|
  {
    if |s| > 0 {
      PlainEscaped(s[1..]);
      assert [s[0]] + s[1..] == s;
    }
  }

  /** Different strings are written differently. */
  lemma QuotedInjective(s: string, t: string)
    requires s != t
    ensures Quoted(s) != Quoted(t)
  {
  }

  /** A quote inside a label is backslashed. */
  lemma QuoteExample()
    ensures Quoted("a\"b") == "\"a\\\"b\""
  {
    assert Escaped("b") == "b";
    assert Escaped("\"b") == "\\\"b";
  }
}

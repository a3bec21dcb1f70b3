/** The two JSON string printers and a reader for string literals as section 7 of RFC 8259
    defines them (escapes of surrogate halves are not read, and neither printer writes one). */
module JsonText {
  import opened Foundation
  import opened Text

  /** `Bounded`: the export printer; `Plain`: the worker protocol's. */
  datatype Style = Bounded | Plain

  function HexDigit(n: nat): char
    requires n < 16
  {
    "0123456789abcdef"[n]
  }

  /** `{:04x}` */
  function Hex4(n: nat): string
    requires n < 0x10000
  {
    [HexDigit(n / 4096), HexDigit(n / 256 % 16), HexDigit(n / 16 % 16), HexDigit(n % 16)]
  }

  function Escape(style: Style, c: char): string {
    if c == '"' then "\\\""
    else if c == '\\' then "\\\\"
    else if c == '\n' then "\\n"
    else if c == '\r' then "\\r"
    else if c == '\t' then "\\t"
    else if style.Bounded? && c as int == 0x08 then "\\b"
    else if style.Bounded? && c as int == 0x0C then "\\f"
    else if c as int < 0x20 || (style.Bounded? && IsControl(c)) then "\\u" + Hex4(c as int)
    else [c]
  }

  /** The short escapes. */
  lemma ShortEscapes(style: Style)
    ensures Escape(style, '"') == ['\\', '"']
    ensures Escape(style, '\\') == ['\\', '\\']
    ensures Escape(style, '\n') == ['\\', 'n']
    ensures Escape(style, '\r') == ['\\', 'r']
    ensures Escape(style, '\t') == ['\\', 't']
    ensures Escape(Bounded, 8 as char) == ['\\', 'b']
    ensures Escape(Bounded, 12 as char) == ['\\', 'f']
  {
    hide Hex4;
  }

  /** Every other control character is printed as six characters, `\u` and four lower-case hexadecimal
      digits, and everything else as it is. The worker protocol's printer escapes only what stands
      below the blank, and has no short forms for backspace and form feed. */
  lemma LongEscapes(style: Style, c: char)
    requires c != '"' && c != '\\' && c != '\n' && c != '\r' && c != '\t'
    requires style.Bounded? ==> c as int != 8 && c as int != 12
    ensures var control := c as int < 32 || (style.Bounded? && 127 <= c as int < 160);
            Escape(style, c) == if control then ['\\', 'u'] + Hex4(c as int) else [c]
  {
    hide Hex4;
  }

  /** Some hexadecimal forms. */
  lemma HexOf()
    ensures Hex4(8) == ['0', '0', '0', '8'] && Hex4(12) == ['0', '0', '0', 'c']
    ensures Hex4(27) == ['0', '0', '1', 'b'] && Hex4(0x9F) == ['0', '0', '9', 'f']
  {
    assert 8 / 4096 == 0 && 8 / 256 % 16 == 0 && 8 / 16 % 16 == 0 && 8 % 16 == 8;
    assert 12 / 16 % 16 == 0 && 12 % 16 == 12;
    assert 27 / 16 % 16 == 1 && 27 % 16 == 11;
    assert 0x9F / 256 % 16 == 0 && 0x9F / 16 % 16 == 9 && 0x9F % 16 == 15;
  }

  function Body(style: Style, s: string): string {
    if s == [] then [] else Escape(style, s[0]) + Body(style, s[1..])
  }

  /** The size in bytes a character takes once escaped. */
  function EscapedLen(c: char): (n: nat)
    ensures n > 0
  {
    if c in {'"', '\\', '\n', '\r', '\t'} || c as int == 0x08 || c as int == 0x0C then 2
    else if IsControl(c) then 6
    else Utf8Len(c)
  }

  function Cost(s: string): nat {
    if s == [] then 0 else Cost(s[..|s| - 1]) + EscapedLen(s[|s| - 1])
  }

  /** How much of `s` fits in `max` escaped bytes: the longest prefix that does. */
  function KeptLen(s: string, max: nat): (k: nat)
    ensures k <= |s| && Cost(s[..k]) <= max
    ensures forall j | k < j <= |s| :: Cost(s[..j]) > max
  {
    assert s[..|s|] == s;
    if Cost(s) <= max then |s| else
    assert forall j | 0 <= j <= |s| - 1 :: s[..|s| - 1][..j] == s[..j];
    KeptLen(s[..|s| - 1], max)
  }

  function Printed(s: string, max: nat): string {
    var k := KeptLen(s, max);
    "\"" + (Body(Bounded, s[..k]) + ((if k < |s| then "..." else "") + "\""))
  }

  lemma {:induction false} BodySnoc(style: Style, s: string, c: char)
    ensures Body(style, s + [c]) == Body(style, s) + Escape(style, c)
  {
    hide Escape;
    if s == [] {
      assert s + [c] == [c] && [c][1..] == [] && Body(style, []) == [];
    } else {
      assert (s + [c])[0] == s[0] && (s + [c])[1..] == s[1..] + [c];
      BodySnoc(style, s[1..], c);
      Assoc(Escape(style, s[0]), Body(style, s[1..]), Escape(style, c));
    }
  }

  lemma {:induction false} CostGrows(s: string, i: nat, j: nat)
    requires i <= j <= |s|
    ensures Cost(s[..i]) <= Cost(s[..j])
  {
    hide EscapedLen;
    if i < j {
      CostGrows(s, i, j - 1);
      assert s[..j][..j - 1] == s[..j - 1];
    }
  }

  /** Greedy printing stops exactly at the longest prefix that fits. */
  lemma StopsAt(s: string, max: nat, k: nat)
    requires k <= |s| && Cost(s[..k]) <= max && (k < |s| ==> Cost(s[..k + 1]) > max)
    ensures KeptLen(s, max) == k
  {
    hide Cost, KeptLen;
    var m := KeptLen(s, max);
    if k < m {
      CostGrows(s, k + 1, m);
    }
  }

  method JsonString(s: string, max: nat) returns (out: string)
    ensures out == Printed(s, max)
  {
    hide Escape, EscapedLen, KeptLen;
    out := "\"";
    var body, truncated, i := 0, false, 0;
    assert s[..0] == [] && Body(Bounded, []) == [];
    while i < |s| && !truncated
      invariant i <= |s|
      invariant out == "\"" + Body(Bounded, s[..i]) && body == Cost(s[..i]) <= max
      invariant truncated ==> i < |s| && Cost(s[..i + 1]) > max
      decreases |s| - i, !truncated
    {
      TakeSnoc(s, i);
      if body + EscapedLen(s[i]) > max {
        truncated := true;
      } else {
        BodySnoc(Bounded, s[..i], s[i]);
        Assoc("\"", Body(Bounded, s[..i]), Escape(Bounded, s[i]));
        out := out + Escape(Bounded, s[i]);
        body := body + EscapedLen(s[i]);
        i := i + 1;
      }
    }
    StopsAt(s, max, i);
    var tail := (if truncated then "..." else "") + "\"";
    Assoc("\"", Body(Bounded, s[..i]), tail);
    out := out + tail;
  }

  method JsonStr(s: string) returns (out: string)
    ensures out == "\"" + (Body(Plain, s) + "\"")
  {
    hide Escape;
    out := "\"";
    assert s[..0] == [] && Body(Plain, []) == [];
    for i := 0 to |s|
      invariant out == "\"" + Body(Plain, s[..i])
    {
      TakeSnoc(s, i);
      BodySnoc(Plain, s[..i], s[i]);
      Assoc("\"", Body(Plain, s[..i]), Escape(Plain, s[i]));
      out := out + Escape(Plain, s[i]);
    }
    assert s[..|s|] == s;
    Assoc("\"", Body(Plain, s), "\"");
    out := out + "\"";
  }

  // ----- sizes -----

  lemma BytesOne(c: char)
    ensures Bytes([c]) == Utf8Len(c)
  {
    assert [c][..0] == [];
  }

  lemma {:induction false} BytesAscii(s: string)
    requires forall i | 0 <= i < |s| :: s[i] as int < 0x80
    ensures Bytes(s) == |s|
  {
    if s != [] {
      BytesAscii(s[..|s| - 1]);
    }
  }

  lemma EscapeCost(c: char)
    ensures Bytes(Escape(Bounded, c)) == EscapedLen(c)
  {
    var e := Escape(Bounded, c);
    if e == [c] {
      BytesOne(c);
    } else {
      BytesAscii(e);
    }
  }

  lemma {:induction false} BodyCost(s: string)
    ensures Bytes(Body(Bounded, s)) == Cost(s)
  {
    hide Escape, EscapedLen, Body;
    if s == [] {
      EmptyBody();
    } else {
      var front, c := s[..|s| - 1], s[|s| - 1];
      BodyCost(front);
      assert s == front + [c];
      BodySnoc(Bounded, front, c);
      BytesAppend(Body(Bounded, front), Escape(Bounded, c));
      EscapeCost(c);
    }
  }

  lemma EmptyBody()
    ensures Body(Bounded, []) == []
  {
  }

  /** The escaped body is within its bound, and the whole literal within five bytes more. */
  lemma PrintedBounded(s: string, max: nat)
    ensures Bytes(Body(Bounded, s[..KeptLen(s, max)])) <= max
    ensures Bytes(Printed(s, max)) <= max + 5
  {
    hide Body, KeptLen;
    var k := KeptLen(s, max);
    BodyCost(s[..k]);
    var tail := (if k < |s| then "..." else "") + "\"";
    BytesAscii(tail);
    BytesAscii("\"");
    BytesAppend(Body(Bounded, s[..k]), tail);
    BytesAppend("\"", Body(Bounded, s[..k]) + tail);
  }

  // ----- reading -----

  function HexVal(c: char): (r: Option<nat>)
    ensures r.Some? ==> r.value < 16
  {
    if '0' <= c <= '9' then Some((c - '0') as nat)
    else if 'a' <= c <= 'f' then Some((c - 'a') as nat + 10)
    else if 'A' <= c <= 'F' then Some((c - 'A') as nat + 10)
    else None
  }

  /** The code unit of four hex digits. */
  function ReadHex4(t: string): (r: Option<nat>)
    ensures r.Some? ==> r.value < 0x10000
  {
    if |t| < 4 then None else
    match (HexVal(t[0]), HexVal(t[1]), HexVal(t[2]), HexVal(t[3]))
    case (Some(a), Some(b), Some(c), Some(d)) => Some(4096 * a + 256 * b + 16 * c + d)
    case _ => None
  }

  /** The character an escape stands for and the text after it. */
  function ReadEscape(t: string): (r: Option<(char, string)>)
    ensures r.Some? ==> |r.value.1| < |t|
  {
    if t == [] then None
    else if t[0] == '"' then Some(('"', t[1..]))
    else if t[0] == '\\' then Some(('\\', t[1..]))
    else if t[0] == '/' then Some(('/', t[1..]))
    else if t[0] == 'b' then Some((0x08 as char, t[1..]))
    else if t[0] == 'f' then Some((0x0C as char, t[1..]))
    else if t[0] == 'n' then Some(('\n', t[1..]))
    else if t[0] == 'r' then Some(('\r', t[1..]))
    else if t[0] == 't' then Some(('\t', t[1..]))
    else if t[0] == 'u' then
      match ReadHex4(t[1..])
      case Some(x) => if x < 0xD800 || 0xDFFF < x then Some((x as char, t[5..])) else None
      case None => None
    else None
  }

  /** Reads up to the closing quote; gives the text and what follows the quote. */
  function ReadBody(t: string): (r: Option<(string, string)>)
    ensures r.Some? ==> |r.value.1| < |t|
    decreases |t|
  {
    if t == [] || t[0] as int < 0x20 then None
    else if t[0] == '"' then Some(([], t[1..]))
    else if t[0] == '\\' then
      match ReadEscape(t[1..])
      case Some((c, rest)) => AfterChar(c, ReadBody(rest))
      case None => None
    else AfterChar(t[0], ReadBody(t[1..]))
  }

  function AfterChar(c: char, r: Option<(string, string)>): (q: Option<(string, string)>)
    ensures q.Some? <==> r.Some?
    ensures q.Some? ==> q.value.1 == r.value.1
  {
    match r
    case Some((s, rest)) => Some(([c] + s, rest))
    case None => None
  }

  function ReadLiteral(t: string): (r: Option<(string, string)>)
    ensures r.Some? ==> |r.value.1| < |t|
  {
    if t == [] || t[0] != '"' then None else ReadBody(t[1..])
  }

  lemma HexReads(n: nat, rest: string)
    requires n < 0x10000
    ensures ReadHex4(Hex4(n) + rest) == Some(n)
  {
    hide HexVal, HexDigit;
    var t := Hex4(n) + rest;
    DigitReads(n / 4096);
    DigitReads(n / 256 % 16);
    DigitReads(n / 16 % 16);
    DigitReads(n % 16);
    assert t[0] == HexDigit(n / 4096) && t[1] == HexDigit(n / 256 % 16) && t[2] == HexDigit(n / 16 % 16)
           && t[3] == HexDigit(n % 16);
    Nibbles(n);
  }

  lemma DigitReads(n: nat)
    requires n < 16
    ensures HexVal(HexDigit(n)) == Some(n)
  {
  }

  lemma Nibbles(n: nat)
    requires n < 0x10000
    ensures 4096 * (n / 4096) + 256 * (n / 256 % 16) + 16 * (n / 16 % 16) + n % 16 == n
  {
    assert n / 256 == n / 16 / 16 && n / 4096 == n / 256 / 16;
  }

  lemma LiteralReads(c: char, rest: string)
    requires c as int >= 0x20 && c != '"' && c != '\\'
    ensures ReadBody([c] + rest) == AfterChar(c, ReadBody(rest))
  {
    var t := [c] + rest;
    assert t[0] == c && t[1..] == rest;
  }

  lemma EscapedReads(e: string, c: char, rest: string)
    requires ReadEscape(e + rest) == Some((c, rest))
    ensures ReadBody("\\" + e + rest) == AfterChar(c, ReadBody(rest))
  {
    hide ReadEscape;
    var t := "\\" + e + rest;
    assert t[0] == '\\' && t[1..] == e + rest;
  }

  lemma ShortEscape(x: char, rest: string)
    requires x in {'"', '\\', 'b', 'f', 'n', 'r', 't'}
    ensures ReadEscape([x] + rest)
            == Some((if x == 'b' then 0x08 as char else if x == 'f' then 0x0C as char
                     else if x == 'n' then '\n' else if x == 'r' then '\r' else if x == 't' then '\t' else x, rest))
  {
    var t := [x] + rest;
    assert t[0] == x && t[1..] == rest;
  }

  lemma HexEscape(n: nat, rest: string)
    requires n < 0xD800
    ensures ReadEscape("u" + Hex4(n) + rest) == Some((n as char, rest))
  {
    hide Hex4, ReadHex4;
    var t := "u" + Hex4(n) + rest;
    HexWidth(n);
    assert t[0] == 'u' && t[1..] == Hex4(n) + rest && t[5..] == rest;
    HexReads(n, rest);
  }

  lemma HexWidth(n: nat)
    requires n < 0x10000
    ensures |Hex4(n)| == 4
  {
  }

  /** Reading an escaped character gives the character back. */
  lemma EscapeReads(style: Style, c: char, rest: string)
    ensures ReadBody(Escape(style, c) + rest) == AfterChar(c, ReadBody(rest))
  {
    hide ReadBody, ReadEscape, Hex4;
    var e := Escape(style, c);
    if e == [c] {
      LiteralReads(c, rest);
    } else if c as int < 0xD800 && e == "\\u" + Hex4(c as int) {
      var h := "u" + Hex4(c as int);
      assert e == "\\" + h;
      HexEscape(c as int, rest);
      EscapedReads(h, c, rest);
    } else {
      assert |e| == 2 && e == "\\" + [e[1]];
      ShortEscape(e[1], rest);
      EscapedReads([e[1]], c, rest);
    }
  }

  lemma {:induction false} BodyReads(style: Style, s: string, rest: string)
    ensures ReadBody(Body(style, s) + rest)
            == match ReadBody(rest) case Some((u, r)) => Some((s + u, r)) case None => None
  {
    hide Escape, ReadBody;
    if s == [] {
      assert Body(style, s) + rest == rest;
      assert forall u: string :: [] + u == u;
    } else {
      var e, b := Escape(style, s[0]), Body(style, s[1..]);
      Assoc(e, b, rest);
      EscapeReads(style, s[0], b + rest);
      BodyReads(style, s[1..], rest);
      match ReadBody(rest)
      case Some((u, r)) =>
        assert [s[0]] + (s[1..] + u) == s + u;
      case None =>
    }
  }

  lemma {:induction false} QuoteReads(u: string, rest: string)
    requires forall c | c in u :: c as int >= 0x20 && c != '"' && c != '\\'
    ensures ReadBody(u + ("\"" + rest)) == Some((u, rest))
  {
    var t := u + ("\"" + rest);
    if u == [] {
      assert t[0] == '"' && t[1..] == rest;
    } else {
      assert u[0] in u && forall c | c in u[1..] :: c in u;
      QuoteReads(u[1..], rest);
      LiteralReads(u[0], u[1..] + ("\"" + rest));
      assert t == [u[0]] + (u[1..] + ("\"" + rest));
      assert [u[0]] + u[1..] == u;
    }
  }

  /** What a reader of a bounded literal sees: the longest prefix that fits, marked if cut. */
  function Shown(s: string, max: nat): string {
    var k := KeptLen(s, max);
    if k < |s| then s[..k] + "..." else s
  }

  /** A bounded literal reads back as the longest prefix that fits, all of it when nothing was cut. */
  lemma PrintedReads(s: string, max: nat, rest: string)
    ensures ReadLiteral(Printed(s, max) + rest) == Some((Shown(s, max), rest))
  {
    hide Body, KeptLen, ReadBody;
    var k := KeptLen(s, max);
    var mark := if k < |s| then "..." else "";
    var body := Body(Bounded, s[..k]);
    var t := Printed(s, max) + rest;
    assert t[0] == '"' && t[1..] == body + (mark + ("\"" + rest));
    QuoteReads(mark, rest);
    BodyReads(Bounded, s[..k], mark + ("\"" + rest));
    if k == |s| {
      assert s[..k] + mark == s;
    }
  }

  /** The unbounded printer reads back as its input. */
  lemma PlainReads(s: string, rest: string)
    ensures ReadLiteral("\"" + (Body(Plain, s) + "\"") + rest) == Some((s, rest))
  {
    hide Body, ReadBody;
    var t := "\"" + (Body(Plain, s) + "\"") + rest;
    var tail: string := [] + ("\"" + rest);
    assert t[0] == '"' && t[1..] == Body(Plain, s) + tail;
    QuoteReads([], rest);
    BodyReads(Plain, s, tail);
    assert s + [] == s;
  }

  // ----- arrays of strings -----

  function Items(values: seq<string>, max: nat): string {
    if values == [] then [] else
    var front := values[..|values| - 1];
    Items(front, max) + ((if front == [] then "" else ",") + Printed(values[|values| - 1], max))
  }

  method JsonStringArray(values: seq<string>, maxItems: nat, max: nat) returns (out: string)
    ensures out == "[" + (Items(FirstN(values, maxItems), max) + "]")
  {
    hide Printed;
    var kept := FirstN(values, maxItems);
    out := "[";
    for i := 0 to |kept|
      invariant out == "[" + Items(kept[..i], max)
    {
      TakeSnoc(kept, i);
      var literal := JsonString(kept[i], max);
      var piece := (if i > 0 then "," else "") + literal;
      Assoc("[", Items(kept[..i], max), piece);
      out := out + piece;
    }
    assert kept[..|kept|] == kept;
    Assoc("[", Items(kept, max), "]");
    out := out + "]";
  }

  /** Reads literals separated by commas up to the closing bracket. */
  function ReadItems(t: string): Option<(seq<string>, string)>
    decreases |t|
  {
    match ReadLiteral(t)
    case None => None
    case Some((s, after)) =>
      if after != [] && after[0] == ']' then Some(([s], after[1..]))
      else if after != [] && after[0] == ',' then
        match ReadItems(after[1..])
        case Some((more, rest)) => Some(([s] + more, rest))
        case None => None
      else None
  }

  function ReadArray(t: string): Option<(seq<string>, string)> {
    if t == [] || t[0] != '[' then None
    else if |t| > 1 && t[1] == ']' then Some(([], t[2..]))
    else ReadItems(t[1..])
  }

  function ShownAll(values: seq<string>, max: nat): seq<string> {
    seq(|values|, i requires 0 <= i < |values| => Shown(values[i], max))
  }

  lemma {:induction false} ItemsFront(values: seq<string>, max: nat)
    requires |values| > 1
    ensures Items(values, max) == Printed(values[0], max) + ("," + Items(values[1..], max))
  {
    hide Printed;
    var front, last := values[..|values| - 1], values[|values| - 1];
    var p, q := Printed(values[0], max), Printed(last, max);
    if |values| == 2 {
      assert front == [values[0]] && front[..0] == [] && values[1..] == [last] && [last][..0] == [];
      assert Items(front, max) == p && Items([last], max) == q;
    } else {
      ItemsFront(front, max);
      assert front[1..] == values[1..][..|values[1..]| - 1];
      var inner := Items(front[1..], max);
      assert Items(values[1..], max) == inner + ("," + q);
      assert p + ("," + inner) + ("," + q) == p + ("," + (inner + ("," + q)));
    }
  }

  lemma ItemsOne(v: string, max: nat)
    ensures Items([v], max) == Printed(v, max)
  {
    hide Printed;
    assert [v][..0] == [];
  }

  lemma {:induction false} ItemsRead(values: seq<string>, max: nat, rest: string)
    requires values != []
    ensures ReadItems(Items(values, max) + ("]" + rest)) == Some((ShownAll(values, max), rest))
    decreases |values|
  {
    hide Printed, ReadLiteral, Shown, Items;
    var tail := "]" + rest;
    var p := Printed(values[0], max);
    if |values| == 1 {
      assert values == [values[0]];
      ItemsOne(values[0], max);
      PrintedReads(values[0], max, tail);
      assert tail[0] == ']' && tail[1..] == rest;
      assert ShownAll(values, max) == [Shown(values[0], max)];
    } else {
      ItemsFront(values, max);
      var inner := Items(values[1..], max);
      var after := "," + (inner + tail);
      assert p + ("," + inner) + tail == p + after;
      PrintedReads(values[0], max, after);
      assert after[0] == ',' && after[1..] == inner + tail;
      ItemsRead(values[1..], max, rest);
      assert ShownAll(values, max) == [Shown(values[0], max)] + ShownAll(values[1..], max);
    }
  }

  lemma PrintedStarts(s: string, max: nat)
    ensures Printed(s, max) != [] && Printed(s, max)[0] == '"'
  {
  }

  lemma ItemsStart(values: seq<string>, max: nat)
    requires values != []
    ensures Items(values, max) != [] && Items(values, max)[0] == '"'
  {
    hide Printed;
    PrintedStarts(values[0], max);
    if |values| == 1 {
      assert values == [values[0]];
      ItemsOne(values[0], max);
    } else {
      ItemsFront(values, max);
    }
  }

  /** A printed array reads back as its first `maxItems` values, each as its literal shows it. */
  lemma ArrayReads(values: seq<string>, maxItems: nat, max: nat, rest: string)
    ensures ReadArray("[" + (Items(FirstN(values, maxItems), max) + "]") + rest)
            == Some((ShownAll(FirstN(values, maxItems), max), rest))
  {
    hide Items, ReadItems, Shown;
    var kept := FirstN(values, maxItems);
    var t := "[" + (Items(kept, max) + "]") + rest;
    if kept == [] {
      NoItems(max);
      assert t == "[]" + rest && t[1] == ']' && t[2..] == rest;
      assert ShownAll(kept, max) == [];
    } else {
      ItemsStart(kept, max);
      assert t[1..] == Items(kept, max) + ("]" + rest);
      ItemsRead(kept, max, rest);
    }
  }

  lemma NoItems(max: nat)
    ensures Items([], max) == []
  {
  }
}

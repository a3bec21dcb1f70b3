/** Text as Unicode scalar values, with the byte length its UTF-8 form has. */
module Text {

  /** `char::len_utf8` */
  function Utf8Len(c: char): (n: nat)
    ensures 1 <= n <= 4
  {
    if c as int < 0x80 then 1
    else if c as int < 0x800 then 2
    else if c as int < 0x10000 then 3
    else 4
  }

  /** `str::len`: the size in bytes */
  function Bytes(s: string): nat {
    if s == [] then 0 else Bytes(s[..|s| - 1]) + Utf8Len(s[|s| - 1])
  }

  lemma {:induction false} BytesAppend(a: string, b: string)
    ensures Bytes(a + b) == Bytes(a) + Bytes(b)
  {
    if b == [] {
      assert a + b == a;
    } else {
      assert (a + b)[..|a + b| - 1] == a + b[..|b| - 1];
      BytesAppend(a, b[..|b| - 1]);
    }
  }

  /** `char::is_control` (general category Cc) */
  predicate IsControl(c: char) {
    c as int < 0x20 || 0x7F <= c as int <= 0x9F
  }

  /** `char::is_whitespace` (the Unicode White_Space property) */
  predicate IsWhitespace(c: char) {
    var x := c as int;
    0x09 <= x <= 0x0D || x == 0x20 || x == 0x85 || x == 0xA0 || x == 0x1680 || 0x2000 <= x <= 0x200A
    || x == 0x2028 || x == 0x2029 || x == 0x202F || x == 0x205F || x == 0x3000
  }

  /** The 25 characters of the White_Space property. */
  lemma WhitespaceIs(c: char)
    ensures IsWhitespace(c) <==>
              c as int in {9, 10, 11, 12, 13, 32, 133, 160, 5760, 8192, 8193, 8194, 8195, 8196, 8197, 8198, 8199,
                           8200, 8201, 8202, 8232, 8233, 8239, 8287, 12288}
  {
  }

  function TrimStart(s: string): string {
    if s != [] && IsWhitespace(s[0]) then TrimStart(s[1..]) else s
  }

  function TrimEnd(s: string): string {
    if s != [] && IsWhitespace(s[|s| - 1]) then TrimEnd(s[..|s| - 1]) else s
  }

  /** Cutting blanks off the end keeps a first character that is not blank. */
  lemma {:induction false} TrimEndKeepsHead(s: string)
    requires s != [] && !IsWhitespace(s[0])
    ensures TrimEnd(s) != [] && TrimEnd(s)[0] == s[0]
  {
    if IsWhitespace(s[|s| - 1]) {
      TrimEndKeepsHead(s[..|s| - 1]);
    }
  }

  /** `str::trim` */
  function Trim(s: string): string {
    TrimEnd(TrimStart(s))
  }

  /** The segments with slashes between them. */
  function Join(segs: seq<string>): string
    requires segs != []
  {
    if |segs| == 1 then segs[0] else segs[0] + "/" + Join(segs[1..])
  }

  predicate Blank(s: string) {
    forall i | 0 <= i < |s| :: IsWhitespace(s[i])
  }

  lemma {:induction false} TrimStartCuts(s: string) returns (k: nat)
    ensures k <= |s| && TrimStart(s) == s[k..] && Blank(s[..k]) && (k < |s| ==> !IsWhitespace(s[k]))
  {
    hide IsWhitespace;
    k := 0;
    if s != [] && IsWhitespace(s[0]) {
      var j := TrimStartCuts(s[1..]);
      k := j + 1;
      assert s[1..][j..] == s[k..];
      forall i | 0 <= i < k ensures IsWhitespace(s[..k][i]) {
        assert i > 0 ==> s[..k][i] == s[1..][..j][i - 1];
      }
      assert k < |s| ==> s[k] == s[1..][j];
    }
  }

  lemma {:induction false} TrimEndCuts(s: string) returns (k: nat)
    ensures k <= |s| && TrimEnd(s) == s[..k] && Blank(s[k..]) && (k > 0 ==> !IsWhitespace(s[k - 1]))
  {
    hide IsWhitespace;
    k := |s|;
    if s != [] && IsWhitespace(s[|s| - 1]) {
      var front := s[..|s| - 1];
      k := TrimEndCuts(front);
      assert front[..k] == s[..k];
      forall i | 0 <= i < |s[k..]| ensures IsWhitespace(s[k..][i]) {
        assert k + i < |s| - 1 ==> s[k..][i] == front[k..][i];
      }
    } else {
      assert s[..k] == s && s[k..] == [];
    }
  }

  /** Trimming takes off blanks at both ends and nothing else, and leaves none there. */
  lemma TrimIs(s: string) returns (before: string, after: string)
    ensures s == before + Trim(s) + after && Blank(before) && Blank(after)
    ensures Trim(s) != [] ==> !IsWhitespace(Trim(s)[0]) && !IsWhitespace(Trim(s)[|Trim(s)| - 1])
  {
    hide IsWhitespace, TrimStart, TrimEnd;
    var j := TrimStartCuts(s);
    var t := TrimStart(s);
    var k := TrimEndCuts(t);
    before, after := s[..j], t[k..];
    assert s == before + t && t == t[..k] + after;
    if k > 0 {
      assert Trim(s)[0] == t[0] == s[j];
    }
  }

  /** The UTF-8 form of a character (section 3 of RFC 3629). */
  function Utf8(c: char): seq<int> {
    var x := c as int;
    if x < 0x80 then [x]
    else if x < 0x800 then [0xC0 + x / 0x40, 0x80 + x % 0x40]
    else if x < 0x10000 then [0xE0 + x / 0x1000, 0x80 + x / 0x40 % 0x40, 0x80 + x % 0x40]
    else [0xF0 + x / 0x40000, 0x80 + x / 0x1000 % 0x40, 0x80 + x / 0x40 % 0x40, 0x80 + x % 0x40]
  }

  /** The size of a character is the size of its UTF-8 form, whose bytes are bytes, six bits to each
      after the first. */
  lemma Utf8LenIs(c: char)
    ensures Utf8Len(c) == |Utf8(c)|
    ensures forall i | 0 < i < |Utf8(c)| :: 0x80 <= Utf8(c)[i] < 0xC0
    ensures 0 <= Utf8(c)[0] < 0xF8
  {
  }

  /** Cuts to at most `max` bytes without splitting a character. */
  function Fit(s: string, max: nat): (r: string)
    ensures r <= s && Bytes(r) <= max
    ensures forall k | |r| < k <= |s| :: Bytes(s[..k]) > max
  {
    if Bytes(s) <= max then s else
    var r := Fit(s[..|s| - 1], max);
    assert forall k | 0 <= k <= |s| - 1 :: s[..|s| - 1][..k] == s[..k];
    assert s[..|s|] == s;
    r
  }
}

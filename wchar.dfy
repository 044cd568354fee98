/**
 * Wide strings for the Win32 calls (src/sys/windows/wchar.rs): the UTF-16
 * encoding of section 2.1 of RFC 2781, a null-terminated encoding, and the
 * copy into a fixed-size WCHAR buffer, which truncates and always writes a
 * terminator. Strings are sequences of Unicode scalar values, as Rust's
 * `str` is.
 */
module Wchars {
  import opened Wrappers
  import opened Ints

  /** One scalar value in UTF-16: itself below 0x10000, a high and a low surrogate above. */
  function EncodeChar(c: char): (r: seq<u16>)
    ensures 1 <= |r| <= 2
  {
    var u := c as int;
    if u < 0x1_0000 then [u]
    else
      var v := u - 0x1_0000;
      [0xD800 + v / 0x400, 0xDC00 + v % 0x400]
  }

  /** `str::encode_utf16`, collected. */
  function Utf16(s: string): seq<u16>
  {
    if |s| == 0 then [] else EncodeChar(s[0]) + Utf16(s[1..])
  }

  predicate IsHighSurrogate(w: u16) { 0xD800 <= w < 0xDC00 }
  predicate IsLowSurrogate(w: u16) { 0xDC00 <= w < 0xE000 }

  /** Decoding, section 2.2 of RFC 2781: `None` on a lone or misplaced surrogate. */
  function DecodeUtf16(ws: seq<u16>): Option<string>
    decreases |ws|
  {
    if |ws| == 0 then Some([])
    else if !IsHighSurrogate(ws[0]) && !IsLowSurrogate(ws[0]) then
      match DecodeUtf16(ws[1..])
      case None => None
      case Some(rest) => Some([ws[0] as char] + rest)
    else if IsHighSurrogate(ws[0]) && |ws| >= 2 && IsLowSurrogate(ws[1]) then
      var u := 0x1_0000 + (ws[0] as int - 0xD800) * 0x400 + (ws[1] as int - 0xDC00);
      match DecodeUtf16(ws[2..])
      case None => None
      case Some(rest) => Some([u as char] + rest)
    else None
  }

  /** The encoding of one scalar value followed by anything decodes to that value, then the rest. */
  lemma DecodeChar(c: char, ws: seq<u16>)
    ensures DecodeUtf16(EncodeChar(c) + ws) ==
      match DecodeUtf16(ws)
      case None => None
      case Some(rest) => Some([c] + rest)
  {
    var e := EncodeChar(c);
    var u := c as int;
    if u < 0x1_0000 {
      assert (e + ws)[1..] == ws;
    } else {
      var v := u - 0x1_0000;
      assert v == 0x400 * (v / 0x400) + v % 0x400;
      assert (e + ws)[2..] == ws;
    }
  }

  /** Decoding undoes the encoding. */
  lemma {:induction false} Utf16RoundTrip(s: string)
    ensures DecodeUtf16(Utf16(s)) == Some(s)
  {
    if |s| > 0 {
      Utf16RoundTrip(s[1..]);
      DecodeChar(s[0], Utf16(s[1..]));
      assert [s[0]] + s[1..] == s;
    }
  }

  /** The encoding of a concatenation is the concatenation of the encodings. */
  lemma {:induction false} Utf16Append(a: string, b: string)
    ensures Utf16(a + b) == Utf16(a) + Utf16(b)
  {
    if |a| > 0 {
      assert (a + b)[1..] == a[1..] + b;
      Utf16Append(a[1..], b);
    } else {
      assert a + b == b;
    }
  }

  /** Below 0x80 every character is one unit, equal to its code. */
  lemma {:induction false} Utf16Ascii(s: string)
    requires forall i :: 0 <= i < |s| ==> s[i] as int < 0x80
    ensures |Utf16(s)| == |s|
    ensures forall i :: 0 <= i < |s| ==> Utf16(s)[i] == s[i] as int
  {
    if |s| > 0 {
      Utf16Ascii(s[1..]);
      assert forall i :: 1 <= i < |s| ==> s[1..][i - 1] == s[i];
    }
  }

  /** `wchar`: the string's UTF-16 units followed by one 0 unit. */
  function Wchar(s: string): (r: seq<u16>)
    ensures r == Utf16(s) + [0]
    ensures DecodeUtf16(r[..|r| - 1]) == Some(s)
  {
    Utf16Append(s, "\0");
    Utf16RoundTrip(s);
    Utf16(s + "\0")
  }

  /** The number of units `wchar_array` copies into a buffer of `len` units: the rest does not fit before the terminator. */
  function CopiedUnits(s: string, len: nat): (k: nat)
    requires len >= 1
    ensures k <= |Utf16(s)| && k <= len - 1
    ensures k == |Utf16(s)| || k == len - 1
  {
    if |Utf16(s)| < len - 1 then |Utf16(s)| else len - 1
  }

  /** The buffer after `wchar_array`: the kept units, a terminator, and the old contents after it. */
  function Filled(s: string, d: seq<u16>): seq<u16>
    requires |d| >= 1
  {
    var k := CopiedUnits(s, |d|);
    Utf16(s)[..k] + [0] + d[k + 1..]
  }

  /**
   * `wchar_array`: truncate the encoding to one unit less than the buffer,
   * copy it in, then terminate. The buffer must hold at least one unit:
   * `dst.len() - 1` underflows on an empty one.
   */
  method WcharArray(s: string, dst: array<u16>)
    requires dst.Length >= 1
    modifies dst
    ensures dst[..] == Filled(s, old(dst[..]))
  {
    var units := Utf16(s);
    var n := if |units| < dst.Length - 1 then |units| else dst.Length - 1;
    units := units[..n];
    for i := 0 to n
      invariant forall m :: 0 <= m < i ==> dst[m] == units[m]
      invariant forall m :: i <= m < dst.Length ==> dst[m] == old(dst[m])
    {
      dst[i] := units[i];
    }
    dst[n] := 0;
    FilledAt(s, old(dst[..]));
    assert n == CopiedUnits(s, dst.Length);
    assert dst[..] == Filled(s, old(dst[..]));
  }

  /** `Filled` element by element. */
  lemma FilledAt(s: string, d: seq<u16>)
    requires |d| >= 1
    ensures |Filled(s, d)| == |d|
    ensures var k := CopiedUnits(s, |d|);
      forall m :: 0 <= m < |d| ==>
        Filled(s, d)[m] == if m < k then Utf16(s)[m] else if m == k then 0 else d[m]
  {
  }

  /**
   * What `wchar_array` promises: the buffer keeps its length, starts with as
   * many units of the encoding as fit before the terminator, holds 0 right
   * after them, and is untouched beyond.
   */
  lemma FilledSpec(s: string, d: seq<u16>)
    requires |d| >= 1
    ensures var k := CopiedUnits(s, |d|);
      |Filled(s, d)| == |d|
      && Filled(s, d)[..k] == Utf16(s)[..k]
      && Filled(s, d)[k] == 0
      && Filled(s, d)[k + 1..] == d[k + 1..]
  {
    var k := CopiedUnits(s, |d|);
    var f := Filled(s, d);
    assert f[..k] == Utf16(s)[..k];
    assert f[k + 1..] == d[k + 1..];
  }

  /** When the whole encoding fits, the buffer starts with `wchar(s)`, and the string can be read back. */
  lemma FilledFits(s: string, d: seq<u16>)
    requires |Utf16(s)| < |d|
    ensures Filled(s, d)[..|Utf16(s)| + 1] == Wchar(s)
    ensures DecodeUtf16(Filled(s, d)[..|Utf16(s)|]) == Some(s)
  {
    var u := Utf16(s);
    var n := |u|;
    assert CopiedUnits(s, |d|) == n;
    assert u[..n] == u;
    var f := Filled(s, d);
    assert f == (u + [0]) + d[n + 1..];
    assert f[..n + 1] == u + [0];
    assert f[..n] == u;
    var w := Wchar(s);
    Utf16RoundTrip(s);
  }

  /** A string starting with a character below 0x80 encodes to its code, then the rest. */
  lemma Utf16AsciiCons(s: string)
    requires |s| > 0 && s[0] as int < 0x80
    ensures Utf16(s) == [s[0] as int] + Utf16(s[1..])
  {
  }

  /** The first four units of a string whose first four characters are below 0x80. */
  lemma AsciiPrefix4(s: string)
    requires |s| >= 4 && forall i :: 0 <= i < 4 ==> s[i] as int < 0x80
    ensures |Utf16(s)| >= 4 && Utf16(s)[..4] == [s[0] as int, s[1] as int, s[2] as int, s[3] as int]
  {
    Utf16AsciiCons(s);
    Utf16AsciiCons(s[1..]);
    Utf16AsciiCons(s[2..]);
    Utf16AsciiCons(s[3..]);
    assert s[1..][1..] == s[2..] && s[2..][1..] == s[3..] && s[3..][1..] == s[4..];
  }

  /** The first four units of "HELLO WORLD". */
  lemma HelloPrefix()
    ensures |Utf16("HELLO WORLD")| >= 4 && Utf16("HELLO WORLD")[..4] == [72, 69, 76, 76]
  {
    AsciiPrefix4("HELLO WORLD");
  }

  /** Too long a string is cut and terminated: "HELLO WORLD" into five units of 99. */
  lemma TestWcharTooLong()
    ensures Filled("HELLO WORLD", [99, 99, 99, 99, 99]) == [72, 69, 76, 76, 0]
  {
    HelloPrefix();
  }

  /** A short string is terminated and the rest of the buffer kept: "HI!". */
  lemma TestWcharTooShort()
    ensures Filled("HI!", [99, 99, 99, 99, 99]) == [72, 73, 33, 0, 99]
  {
    Utf16Ascii("HI!");
    assert Utf16("HI!") == [72, 73, 33];
  }

  /** The empty string leaves only the terminator. */
  lemma TestWcharEmpty()
    ensures Filled("", [99, 99, 99, 99, 99]) == [0, 99, 99, 99, 99]
  {
  }

  /**
   * The truncation counts units, not characters: a character outside the
   * Basic Multilingual Plane cut after its high surrogate leaves a buffer
   * that does not decode.
   */
  lemma TruncationSplitsSurrogates()
    ensures Filled("\U{1F600}", [99, 99]) == [0xD83D, 0]
    ensures DecodeUtf16(Filled("\U{1F600}", [99, 99])[..1]) == None
  {
    assert Utf16("\U{1F600}") == [0xD83D, 0xDE00];
  }
}

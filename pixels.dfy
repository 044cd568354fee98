/**
 * The RGBA to ARGB pixel conversion shared by the status item
 * (src/sys/linux/dbus/status_notifier_item.rs) and the KDE icon
 * (src/sys/linux/kdeicon.rs): the buffer is cut into 4-byte chunks, every
 * full chunk `[r, g, b, a]` is emitted as `[a, r, g, b]`, and a trailing
 * partial chunk is dropped.
 */
module Pixels {
  import opened Ints

  /** The reference conversion, one chunk at a time from the front. */
  function Argb(s: seq<u8>): seq<u8>
    decreases |s|
  {
    if |s| < 4 then [] else [s[3], s[0], s[1], s[2]] + Argb(s[4..])
  }

  /** The inverse permutation, `[a, r, g, b]` back to `[r, g, b, a]`. */
  function Rgba(s: seq<u8>): seq<u8>
    decreases |s|
  {
    if |s| < 4 then [] else [s[1], s[2], s[3], s[0]] + Rgba(s[4..])
  }

  /** The length is the number of full chunks times four. */
  lemma {:induction false} ArgbLength(s: seq<u8>)
    ensures |Argb(s)| == 4 * (|s| / 4)
    decreases |s|
  {
    if |s| >= 4 {
      ArgbLength(s[4..]);
    }
  }

  /** Chunk `c` of the output is chunk `c` of the input with its alpha byte moved to the front. */
  lemma {:induction false} ArgbChunk(s: seq<u8>, c: nat)
    requires 4 * c + 4 <= |s|
    ensures |Argb(s)| >= 4 * c + 4
    ensures Argb(s)[4 * c..4 * c + 4] == [s[4 * c + 3], s[4 * c], s[4 * c + 1], s[4 * c + 2]]
    decreases c
  {
    ArgbLength(s);
    if c > 0 {
      ArgbChunk(s[4..], c - 1);
      var rest := Argb(s[4..]);
      assert Argb(s)[4 * c..4 * c + 4] == rest[4 * (c - 1)..4 * (c - 1) + 4];
    }
  }

  /** Converting back recovers the input up to its last full chunk: nothing but the tail is lost. */
  lemma {:induction false} ArgbRoundTrip(s: seq<u8>)
    ensures Rgba(Argb(s)) == s[..4 * (|s| / 4)]
    decreases |s|
  {
    if |s| >= 4 {
      ArgbRoundTrip(s[4..]);
      var chunk: seq<u8> := [s[3], s[0], s[1], s[2]];
      assert (chunk + Argb(s[4..]))[4..] == Argb(s[4..]);
      assert s[..4 * (|s| / 4)] == s[..4] + s[4..][..4 * (|s[4..]| / 4)];
    }
  }

  /** The conversion over the concatenation of a full chunk and the rest, unfolded once. */
  lemma ArgbStep(s: seq<u8>, i: nat)
    requires i + 4 <= |s|
    ensures Argb(s[i..]) == [s[i + 3], s[i], s[i + 1], s[i + 2]] + Argb(s[i + 4..])
  {
    assert s[i..][4..] == s[i + 4..];
  }

  /**
   * The loop over `buffer.chunks(4)`: each chunk is at most four bytes, the
   * last may be shorter; only full chunks are pushed, alpha first.
   */
  method ConvertRgbaToArgb(rgba: seq<u8>) returns (argb: seq<u8>)
    ensures argb == Argb(rgba)
  {
    argb := [];
    var i := 0;
    while i < |rgba|
      invariant i <= |rgba|
      invariant argb + Argb(rgba[i..]) == Argb(rgba)
    {
      var n := if |rgba| - i < 4 then |rgba| - i else 4;
      var chunk := rgba[i..i + n];
      if |chunk| == 4 {
        ArgbStep(rgba, i);
        argb := argb + [chunk[3], chunk[0], chunk[1], chunk[2]];
      }
      i := i + n;
    }
  }
}

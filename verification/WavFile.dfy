/** Canonical WAV headers (services/wav.py, services/timeline.py:79-93) and the header that
    stitching patches (services/stitch.py:84-93). */
module WavFile {

  newtype byte = x: int | 0 <= x < 256

  datatype Result<+T> = Ok(value: T) | Error

  const HEADER_BYTES: nat := 44

  function Ascii(s: string): (b: seq<byte>)
    requires forall k :: 0 <= k < |s| ==> s[k] < 128 as char
    ensures |b| == |s|
  {
    seq(|s|, k requires 0 <= k < |s| => (s[k] as int) as byte)
  }

  /** `struct.pack("<H", n)` */
  function Le16(n: nat): (b: seq<byte>)
    requires n < 0x1_0000
    ensures |b| == 2
  {
    [(n % 256) as byte, (n / 256) as byte]
  }

  /** `struct.pack("<I", n)` */
  function Le32(n: nat): (b: seq<byte>)
    requires n < 0x1_0000_0000
    ensures |b| == 4
  {
    Le16(n % 0x1_0000) + Le16(n / 0x1_0000)
  }

  /** The parameters and sizes a header can hold. */
  predicate Packable(data: nat, rate: nat, channels: nat) {
    36 + data < 0x1_0000_0000 && rate < 0x1_0000_0000 && channels * 2 < 0x1_0000 && rate * channels * 2 < 0x1_0000_0000
  }

  /** Everything before the size of the data chunk, after the RIFF size. */
  function Format(rate: nat, channels: nat): (b: seq<byte>)
    requires Packable(0, rate, channels)
    ensures |b| == 32
  {
    Ascii("WAVEfmt ") + Le32(16) + Le16(1) + Le16(channels) + Le32(rate) + Le32(rate * channels * 2)
    + Le16(channels * 2) + Le16(16) + Ascii("data")
  }

  function Header(data: nat, rate: nat, channels: nat): (h: seq<byte>)
    requires Packable(data, rate, channels)
    ensures |h| == HEADER_BYTES
  {
    Ascii("RIFF") + Le32(36 + data) + Format(rate, channels) + Le32(data)
  }

  /** `wrap_pcm` */
  function Wrap(pcm: seq<byte>, rate: nat, channels: nat): (w: seq<byte>)
    requires Packable(|pcm|, rate, channels)
    ensures |w| == HEADER_BYTES + |pcm| && w[HEADER_BYTES..] == pcm
  {
    Header(|pcm|, rate, channels) + pcm
  }

  // ----- the layout

  /** Least significant byte first. */
  lemma LittleEndian16(n: nat)
    requires n < 0x1_0000
    ensures Le16(n)[0] as int + Le16(n)[1] as int * 256 == n
  {
  }

  lemma LittleEndian32(n: nat)
    requires n < 0x1_0000_0000
    ensures var b := Le32(n); b[0] as int + b[1] as int * 256 + b[2] as int * 65536 + b[3] as int * 16777216 == n
  {
    var b := Le32(n);
    assert b[..2] == Le16(n % 0x1_0000) && b[2..] == Le16(n / 0x1_0000);
    LittleEndian16(n % 0x1_0000);
    LittleEndian16(n / 0x1_0000);
    hide Le16, Le32;
    assert b[0] == b[..2][0] && b[1] == b[..2][1] && b[2] == b[2..][0] && b[3] == b[2..][1];
  }

  /** `struct.unpack_from("<H", b, i)` and `"<I"` */
  function Word16(b: seq<byte>, i: nat): nat
    requires i + 2 <= |b|
  {
    b[i] as int + b[i + 1] as int * 256
  }

  function Word32(b: seq<byte>, i: nat): nat
    requires i + 4 <= |b|
  {
    Word16(b, i) + Word16(b, i + 2) * 0x1_0000
  }

  lemma Reads16(b: seq<byte>, i: nat, n: nat)
    requires n < 0x1_0000 && i + 2 <= |b| && b[i..i + 2] == Le16(n)
    ensures Word16(b, i) == n
  {
    LittleEndian16(n);
    assert b[i..i + 2][0] == b[i] && b[i..i + 2][1] == b[i + 1];
  }

  lemma Reads32(b: seq<byte>, i: nat, n: nat)
    requires n < 0x1_0000_0000 && i + 4 <= |b| && b[i..i + 4] == Le32(n)
    ensures Word32(b, i) == n
  {
    LittleEndian32(n);
    hide Le32;
    var w := b[i..i + 4];
    assert w[0] == b[i] && w[1] == b[i + 1] && w[2] == b[i + 2] && w[3] == b[i + 3];
  }

  lemma NineParts(a: seq<byte>, b: seq<byte>, c: seq<byte>, d: seq<byte>, e: seq<byte>, f: seq<byte>, g: seq<byte>,
                  h: seq<byte>, i: seq<byte>)
    requires |a| == 8 && |b| == 4 && |c| == 2 && |d| == 2 && |e| == 4 && |f| == 4 && |g| == 2 && |h| == 2 && |i| == 4
    ensures var x := a + b + c + d + e + f + g + h + i;
      && |x| == 32 && x[0..8] == a && x[8..12] == b && x[12..14] == c && x[14..16] == d && x[16..20] == e
      && x[20..24] == f && x[24..26] == g && x[26..28] == h && x[28..32] == i
  {
  }

  lemma FieldsOf(h: seq<byte>, size: seq<byte>, f: seq<byte>, data: seq<byte>, i: nat, j: nat)
    requires |size| == 4 && |f| == 32 && |data| == 4 && h == Ascii("RIFF") + size + f + data && i <= j <= 32
    ensures |h| == 44 && h[..4] == Ascii("RIFF") && h[4..8] == size && h[8 + i..8 + j] == f[i..j] && h[40..44] == data
  {
    hide Ascii;
    assert h[8..40] == f;
    assert h[8..40][i..j] == h[8 + i..8 + j];
  }

  /** A header's fields, each in its place: the chunk names, the sizes, PCM of 16 bits a sample. */
  predicate LaidOut(h: seq<byte>, data: int, rate: int, channels: int, byteRate: int, blockAlign: int) {
    && |h| == 44 && h[..4] == [82, 73, 70, 70] && Word32(h, 4) == 36 + data
    && h[8..16] == [87, 65, 86, 69, 102, 109, 116, 32] && Word32(h, 16) == 16 && Word16(h, 20) == 1
    && Word16(h, 22) == channels && Word32(h, 24) == rate && Word32(h, 28) == byteRate
    && Word16(h, 32) == blockAlign && Word16(h, 34) == 16
    && h[36..40] == [100, 97, 116, 97] && Word32(h, 40) == data
  }

  lemma LayoutOf(h: seq<byte>, f: seq<byte>, data: nat, rate: nat, channels: nat, byteRate: nat, blockAlign: nat)
    requires 36 + data < 0x1_0000_0000 && rate < 0x1_0000_0000 && channels < 0x1_0000
    requires byteRate < 0x1_0000_0000 && blockAlign < 0x1_0000
    requires f == Ascii("WAVEfmt ") + Le32(16) + Le16(1) + Le16(channels) + Le32(rate) + Le32(byteRate)
                  + Le16(blockAlign) + Le16(16) + Ascii("data")
    requires h == Ascii("RIFF") + Le32(36 + data) + f + Le32(data)
    ensures LaidOut(h, data, rate, channels, byteRate, blockAlign)
  {
    assert Ascii("RIFF") == [82, 73, 70, 70] && Ascii("data") == [100, 97, 116, 97];
    assert Ascii("WAVEfmt ") == [87, 65, 86, 69, 102, 109, 116, 32];
    hide Ascii, Le16, Le32, Word16, Word32;
    NineParts(Ascii("WAVEfmt "), Le32(16), Le16(1), Le16(channels), Le32(rate), Le32(byteRate), Le16(blockAlign),
              Le16(16), Ascii("data"));
    FieldsOf(h, Le32(36 + data), f, Le32(data), 0, 8);
    FieldsOf(h, Le32(36 + data), f, Le32(data), 8, 12);
    FieldsOf(h, Le32(36 + data), f, Le32(data), 12, 14);
    FieldsOf(h, Le32(36 + data), f, Le32(data), 14, 16);
    FieldsOf(h, Le32(36 + data), f, Le32(data), 16, 20);
    FieldsOf(h, Le32(36 + data), f, Le32(data), 20, 24);
    FieldsOf(h, Le32(36 + data), f, Le32(data), 24, 26);
    FieldsOf(h, Le32(36 + data), f, Le32(data), 26, 28);
    FieldsOf(h, Le32(36 + data), f, Le32(data), 28, 32);
    Reads32(h, 4, 36 + data);
    Reads32(h, 16, 16);
    Reads16(h, 20, 1);
    Reads16(h, 22, channels);
    Reads32(h, 24, rate);
    Reads32(h, 28, byteRate);
    Reads16(h, 32, blockAlign);
    Reads16(h, 34, 16);
    Reads32(h, 40, data);
  }

  /** Two bytes a sample for each channel in the rates. */
  lemma HeaderLayout(data: nat, rate: nat, channels: nat)
    requires Packable(data, rate, channels)
    ensures LaidOut(Header(data, rate, channels), data, rate, channels, rate * channels * 2, channels * 2)
  {
    hide LaidOut, Ascii, Le16, Le32;
    var byteRate := rate * channels * 2;
    LayoutOf(Header(data, rate, channels), Format(rate, channels), data, rate, channels, byteRate, channels * 2);
  }

  /** `_parse_wav_fmt`: rate and channels of a header; an error when it is none, or not 16 bits. */
  function ParseFormat(header: seq<byte>): Result<(nat, nat)> {
    if |header| < HEADER_BYTES || header[..4] != Ascii("RIFF") || header[8..12] != Ascii("WAVE") then Error
    else if Word16(header, 34) != 16 then Error
    else Ok((Word32(header, 24), Word16(header, 22)))
  }

  /** Reading the parameters back from any stored file gives those it was written with. */
  lemma FormatRoundTrip(pcm: seq<byte>, rate: nat, channels: nat)
    requires Packable(|pcm|, rate, channels)
    ensures ParseFormat(Wrap(pcm, rate, channels)) == Ok((rate, channels))
  {
    HeaderLayout(|pcm|, rate, channels);
    assert Ascii("RIFF") == [82, 73, 70, 70] && Ascii("WAVE") == [87, 65, 86, 69];
    BehindHeaderBytes(Header(|pcm|, rate, channels), pcm);
    hide Header, Ascii, Packable;
    var h, w := Header(|pcm|, rate, channels), Wrap(pcm, rate, channels);
    assert h[8..12] == h[8..16][..4];
  }

  lemma BehindHeaderBytes(h: seq<byte>, pcm: seq<byte>)
    requires |h| == 44
    ensures var w := h + pcm; w[..4] == h[..4] && w[8..12] == h[8..12]
    ensures forall k: nat :: k + 2 <= 44 ==> Word16(h + pcm, k) == Word16(h, k)
    ensures forall k: nat :: k + 4 <= 44 ==> Word32(h + pcm, k) == Word32(h, k)
  {
  }

  /** `patch_header`: the template's header with both size fields rewritten; an error when the
      template is no header or the sizes do not fit 32 bits. */
  function PatchHeader(template: seq<byte>, data: nat): (r: Result<seq<byte>>)
    ensures r.Ok? ==> |r.value| == HEADER_BYTES
  {
    if 36 + data >= 0x1_0000_0000 then Error
    else if |template| < HEADER_BYTES || template[..4] != Ascii("RIFF") || template[8..12] != Ascii("WAVE") then Error
    else Ok(template[..4] + Le32(36 + data) + template[8..40] + Le32(data))
  }

  /** Patching never touches a byte outside the two size fields, and rewriting a canonical
      header gives the canonical header of the new size. */
  lemma PatchMeansResize(pcm: seq<byte>, rate: nat, channels: nat, data: nat)
    requires Packable(|pcm|, rate, channels) && Packable(data, rate, channels)
    ensures PatchHeader(Wrap(pcm, rate, channels), data) == Ok(Header(data, rate, channels))
  {
    var h, f := Header(|pcm|, rate, channels), Format(rate, channels);
    var w := Wrap(pcm, rate, channels);
    assert w[..4] == Ascii("RIFF") && w[8..40] == f;
    assert f[..4] == Ascii("WAVE");
    assert w[8..12] == f[..4];
  }
}

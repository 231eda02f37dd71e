/** Removal of location and authorship metadata from an uploaded picture, by container format. */
module StripMetadata {
  import opened Bytes
  import Jpeg
  import Png
  import WebP

  const PNG_SIGNATURE: seq<Byte> := [0x89, 0x50, 0x4E, 0x47, 0x0D, 0x0A, 0x1A, 0x0A]
  const RIFF: seq<Byte> := [0x52, 0x49, 0x46, 0x46]
  const WEBP: seq<Byte> := [0x57, 0x45, 0x42, 0x50]

  predicate IsJpeg(data: seq<Byte>) { |data| > 4 && data[0] == 0xFF && data[1] == 0xD8 }

  predicate IsPng(data: seq<Byte>) { |data| > 8 && data[..8] == PNG_SIGNATURE }

  predicate IsWebP(data: seq<Byte>) { |data| > 12 && data[..4] == RIFF && data[8..12] == WEBP }

  function Stripped(data: seq<Byte>): seq<Byte> {
    if IsJpeg(data) then Jpeg.Strip(data)
    else if IsPng(data) then Png.Strip(data)
    else if IsWebP(data) then WebP.Strip(data)
    else data
  }

  /** A file begins like one format at most. */
  lemma Kinds(data: seq<Byte>)
    ensures |data| > 4 && data[..2] == [0xFF, 0xD8] ==> IsJpeg(data)
    ensures |data| > 8 && data[..8] == [0x89, 0x50, 0x4E, 0x47, 0x0D, 0x0A, 0x1A, 0x0A] ==>
              IsPng(data) && !IsJpeg(data)
    ensures |data| > 12 && data[..4] == Ascii("RIFF") && data[8..12] == Ascii("WEBP") ==>
              IsWebP(data) && !IsPng(data) && !IsJpeg(data)
  {
    assert Ascii("RIFF") == RIFF && Ascii("WEBP") == WEBP;
    if |data| > 12 {
      assert data[..2][0] == data[0] == data[..4][0] == data[..8][0] && data[..2][1] == data[1];
    } else if |data| > 8 {
      assert data[..2][0] == data[0] == data[..8][0] && data[..2][1] == data[1];
    } else if |data| > 4 {
      assert data[..2][0] == data[0] && data[..2][1] == data[1];
    }
  }

  method Strip(data: seq<Byte>) returns (out: seq<Byte>)
    ensures out == Stripped(data)
    ensures |data| > 4 && data[..2] == [0xFF, 0xD8] ==> out == Jpeg.Strip(data)
    ensures |data| > 8 && data[..8] == [0x89, 0x50, 0x4E, 0x47, 0x0D, 0x0A, 0x1A, 0x0A] ==> out == Png.Strip(data)
    ensures |data| > 12 && data[..4] == Ascii("RIFF") && data[8..12] == Ascii("WEBP") ==> out == WebP.Strip(data)
  {
    Kinds(data);
    if |data| > 4 && data[0] == 0xFF && data[1] == 0xD8 {
      out := Jpeg.StripJpegMetadata(data);
    } else if |data| > 8 && data[..8] == PNG_SIGNATURE {
      out := Png.StripPngMetadata(data);
    } else if |data| > 12 && data[..4] == RIFF && data[8..12] == WEBP {
      out := WebP.StripWebPMetadata(data);
    } else {
      out := data;
    }
  }

  /** Stripping a stripped picture changes nothing, whatever the bytes are. */
  lemma StrippedTwice(data: seq<Byte>)
    ensures Stripped(Stripped(data)) == Stripped(data)
  {
    var out := Stripped(data);
    if IsJpeg(data) {
      Jpeg.StripIdempotent(data);
      Jpeg.StripStarts(data);
      assert !IsPng(out) by {
        if |out| > 8 {
          assert out[..8][0] == 0xFF;
        }
      }
      assert !IsWebP(out) by {
        if |out| > 12 {
          assert out[..4][0] == 0xFF;
        }
      }
    } else if IsPng(data) {
      Png.StripIdempotent(data);
      Png.StripStarts(data);
      assert out[0] == out[..8][0] == 0x89;
    } else if IsWebP(data) {
      WebP.StripIdempotent(data);
      WebP.StripStarts(data);
      assert out[0] == out[..4][0] == 0x52;
      assert out[..8][0] == out[0] || |out| <= 8;
    }
  }
}

/** The keys under which redrawn masks and sized previews are recorded. */
module PreviewKeys {
  import opened Options
  import Seqs
  import opened Text

  /** The name of a variant in a bundle, or of a file of its own. */
  function VariantOverrideKey(cid: string, variant: string): string {
    if variant == "" then cid else cid + ['/'] + variant
  }

  /** A configured size with the settings that shape its previews. */
  datatype Size = Size(variant: string, width: nat, height: nat, mode: string, policy: string, quality: nat)

  /** A frame as its key shows it: in ten-thousandths. */
  datatype Crop = Crop(x: nat, y: nat, w: nat, h: nat)

  /** What a preview is made of; no mask or no redrawn file is the empty string. */
  datatype Request = Request(cid: string, size: Size, mask: string, maskCid: string, crop: Option<Crop>)

  const VERSION := "preview-v2"
  const CROP := "crop-"

  function Pad4(n: nat): string
    requires n < 10000
  {
    [Digit(n / 10 / 10 / 10), Digit(n / 10 / 10 % 10), Digit(n / 10 % 10), Digit(n % 10)]
  }

  /** A fraction with four decimals. */
  function Fixed4(n: nat): string { Digits(n / 10000) + "." + Pad4(n % 10000) }

  function CropKey(c: Crop): string { Join([Fixed4(c.x), Fixed4(c.y), Fixed4(c.w), Fixed4(c.h)], ',') }

  function SizeParts(s: Size): seq<string> {
    [VERSION, s.variant, Digits(s.width) + ['x'] + Digits(s.height), s.mode, s.policy, "q" + Digits(s.quality)]
  }

  function MaskParts(mask: string, maskCid: string): seq<string> {
    if mask == "" then [] else if maskCid == "" then [mask] else [mask, maskCid]
  }

  function CropParts(crop: Option<Crop>): seq<string> {
    match crop case None => [] case Some(c) => [CROP + CropKey(c)]
  }

  function KeyParts(r: Request): seq<string> {
    [r.cid] + SizeParts(r.size) + (MaskParts(r.mask, r.maskCid) + CropParts(r.crop))
  }

  function PreviewKey(r: Request): string { Join(KeyParts(r), '/') }

  method BuildPreviewKey(r: Request) returns (key: string)
    ensures key == PreviewKey(r)
  {
    var s := r.size;
    var cacheVariant := Join([VERSION, s.variant, Digits(s.width) + ['x'] + Digits(s.height), s.mode, s.policy,
                              "q" + Digits(s.quality)], '/');
    ghost var parts := SizeParts(s);
    if r.mask != "" {
      JoinSnoc(parts, r.mask, '/');
      cacheVariant := cacheVariant + ['/'] + r.mask;
      parts := parts + [r.mask];
      if r.maskCid != "" {
        JoinSnoc(parts, r.maskCid, '/');
        cacheVariant := cacheVariant + ['/'] + r.maskCid;
        parts := parts + [r.maskCid];
      }
    }
    assert parts == SizeParts(s) + MaskParts(r.mask, r.maskCid);
    if r.crop.Some? {
      var crop := CROP + CropKey(r.crop.value);
      JoinSnoc(parts, crop, '/');
      cacheVariant := cacheVariant + ['/'] + crop;
      parts := parts + [crop];
    }
    assert parts == SizeParts(s) + (MaskParts(r.mask, r.maskCid) + CropParts(r.crop));
    JoinConcat([r.cid], parts, '/');
    assert KeyParts(r) == [r.cid] + parts;
    JoinNotEmpty(parts);
    return VariantOverrideKey(r.cid, cacheVariant);
  }

  lemma JoinNotEmpty(parts: seq<string>)
    requires |parts| > 1
    ensures Join(parts, '/') != ""
  {
  }

  // ---------- Different previews, different keys ----------

  lemma DigitsPlain(n: nat)
    ensures forall c <- Digits(n) :: IsDigit(c)
    ensures '/' !in Digits(n) && 'x' !in Digits(n) && ',' !in Digits(n) && '.' !in Digits(n)
  {
    ValueOfDigits(n);
  }

  lemma DigitInjective(a: nat, b: nat)
    requires a < 10 && b < 10 && Digit(a) == Digit(b)
    ensures a == b
  {
  }

  lemma Pad4Injective(a: nat, b: nat)
    requires a < 10000 && b < 10000 && Pad4(a) == Pad4(b)
    ensures a == b
  {
    DigitInjective(a / 10 / 10 / 10, b / 10 / 10 / 10);
    DigitInjective(a / 10 / 10 % 10, b / 10 / 10 % 10);
    DigitInjective(a / 10 % 10, b / 10 % 10);
    DigitInjective(a % 10, b % 10);
  }

  lemma Fixed4Injective(a: nat, b: nat)
    requires Fixed4(a) == Fixed4(b)
    ensures a == b
  {
    Seqs.Cut3(Digits(a / 10000), ".", Pad4(a % 10000));
    Seqs.Cut3(Digits(b / 10000), ".", Pad4(b % 10000));
    assert |Fixed4(a)| == |Digits(a / 10000)| + 5 && |Fixed4(b)| == |Digits(b / 10000)| + 5;
    DigitsInjective(a / 10000, b / 10000);
    Pad4Injective(a % 10000, b % 10000);
  }

  lemma Fixed4Plain(n: nat)
    ensures ',' !in Fixed4(n) && '/' !in Fixed4(n)
  {
    DigitsPlain(n / 10000);
  }

  lemma CropKeyInjective(a: Crop, b: Crop)
    requires CropKey(a) == CropKey(b)
    ensures a == b
  {
    Fixed4Plain(a.x); Fixed4Plain(a.y); Fixed4Plain(a.w); Fixed4Plain(a.h);
    Fixed4Plain(b.x); Fixed4Plain(b.y); Fixed4Plain(b.w); Fixed4Plain(b.h);
    var p, q := [Fixed4(a.x), Fixed4(a.y), Fixed4(a.w), Fixed4(a.h)],
                [Fixed4(b.x), Fixed4(b.y), Fixed4(b.w), Fixed4(b.h)];
    JoinInjective(p, q, ',');
    assert p[0] == q[0] && p[1] == q[1] && p[2] == q[2] && p[3] == q[3];
    Fixed4Injective(a.x, b.x);
    Fixed4Injective(a.y, b.y);
    Fixed4Injective(a.w, b.w);
    Fixed4Injective(a.h, b.h);
  }

  predicate Slashless(s: string) { '/' !in s }

  /** Parts without a slash, and masks that do not look like a frame. */
  predicate Proper(r: Request) {
    && Slashless(r.cid) && Slashless(r.size.variant) && Slashless(r.size.mode) && Slashless(r.size.policy)
    && Slashless(r.mask) && Slashless(r.maskCid) && !HasPrefix(r.mask, CROP) && !HasPrefix(r.maskCid, CROP)
    && (r.mask == "" ==> r.maskCid == "")
  }

  lemma CropPartPlain(c: Crop)
    ensures Slashless(CROP + CropKey(c)) && HasPrefix(CROP + CropKey(c), CROP)
  {
    Fixed4Plain(c.x);
    Fixed4Plain(c.y);
    Fixed4Plain(c.w);
    Fixed4Plain(c.h);
    JoinLacks([Fixed4(c.x), Fixed4(c.y), Fixed4(c.w), Fixed4(c.h)], ',', '/');
  }

  lemma PartsSlashless(r: Request)
    requires Proper(r)
    ensures forall p <- KeyParts(r) :: '/' !in p
  {
    var s := r.size;
    DigitsPlain(s.width);
    DigitsPlain(s.height);
    DigitsPlain(s.quality);
    forall p <- KeyParts(r) ensures Slashless(p) {
      if r.crop.Some? {
        CropPartPlain(r.crop.value);
      }
      assert p == r.cid || p in SizeParts(s) || p in MaskParts(r.mask, r.maskCid) || p in CropParts(r.crop);
    }
  }

  lemma SplitPair(a: string, b: string, c: char)
    requires c !in a && c !in b
    ensures Split(a + [c] + b, c) == [a, b]
  {
    SplitFirst(a, b, c);
    SplitFirst(b, "", c);
  }

  lemma SizesInjective(w: nat, h: nat, v: nat, k: nat)
    requires Digits(w) + ['x'] + Digits(h) == Digits(v) + ['x'] + Digits(k)
    ensures w == v && h == k
  {
    DigitsPlain(w);
    DigitsPlain(h);
    DigitsPlain(v);
    DigitsPlain(k);
    SplitPair(Digits(w), Digits(h), 'x');
    SplitPair(Digits(v), Digits(k), 'x');
    var p, q := [Digits(w), Digits(h)], [Digits(v), Digits(k)];
    assert p[0] == q[0] && p[1] == q[1];
    DigitsInjective(w, v);
    DigitsInjective(h, k);
  }

  lemma QualityInjective(a: nat, b: nat)
    requires "q" + Digits(a) == "q" + Digits(b)
    ensures a == b
  {
    Seqs.TakeDrop("q", Digits(a));
    Seqs.TakeDrop("q", Digits(b));
    DigitsInjective(a, b);
  }

  lemma SizePartsInjective(a: Size, b: Size)
    requires SizeParts(a) == SizeParts(b)
    ensures a == b
  {
    var p, q := SizeParts(a), SizeParts(b);
    assert p[1] == q[1] && p[2] == q[2] && p[3] == q[3] && p[4] == q[4] && p[5] == q[5];
    SizesInjective(a.width, a.height, b.width, b.height);
    QualityInjective(a.quality, b.quality);
  }

  lemma TailInjective(a: Request, b: Request)
    requires Proper(a) && Proper(b)
    requires MaskParts(a.mask, a.maskCid) + CropParts(a.crop) == MaskParts(b.mask, b.maskCid) + CropParts(b.crop)
    ensures a.mask == b.mask && a.maskCid == b.maskCid && a.crop == b.crop
  {
    var p, q := MaskParts(a.mask, a.maskCid) + CropParts(a.crop), MaskParts(b.mask, b.maskCid) + CropParts(b.crop);
    TailEnds(a, p);
    TailEnds(b, q);
    if a.crop.Some? {
      Seqs.TakeDrop(CROP, CropKey(a.crop.value));
      Seqs.TakeDrop(CROP, CropKey(b.crop.value));
      CropKeyInjective(a.crop.value, b.crop.value);
    }
    var n := |MaskParts(a.mask, a.maskCid)|;
    Seqs.TakeDrop(MaskParts(a.mask, a.maskCid), CropParts(a.crop));
    Seqs.TakeDrop(MaskParts(b.mask, b.maskCid), CropParts(b.crop));
    MaskPartsInjective(a.mask, a.maskCid, b.mask, b.maskCid);
  }

  /** The last part tells whether there is a frame. */
  lemma TailEnds(r: Request, parts: seq<string>)
    requires Proper(r) && parts == MaskParts(r.mask, r.maskCid) + CropParts(r.crop)
    ensures r.crop.Some? <==> parts != [] && HasPrefix(parts[|parts| - 1], CROP)
    ensures r.crop.Some? ==> parts[|parts| - 1] == CROP + CropKey(r.crop.value)
  {
    if r.crop.Some? {
      CropPartPlain(r.crop.value);
    }
  }

  lemma MaskPartsInjective(m: string, c: string, n: string, d: string)
    requires MaskParts(m, c) == MaskParts(n, d) && (m == "" ==> c == "") && (n == "" ==> d == "")
    ensures m == n && c == d
  {
    var p, q := MaskParts(m, c), MaskParts(n, d);
    assert m != "" ==> p[0] == q[0];
    assert c != "" ==> p[1] == q[1];
  }

  /** A key belongs to one bundle, size, setting, mask, redrawn file and frame only. */
  lemma KeysAreInjective(a: Request, b: Request)
    requires Proper(a) && Proper(b) && PreviewKey(a) == PreviewKey(b)
    ensures a == b
  {
    PartsSlashless(a);
    PartsSlashless(b);
    JoinInjective(KeyParts(a), KeyParts(b), '/');
    var p, q := KeyParts(a), KeyParts(b);
    assert p[0] == q[0];
    assert p[1..7] == SizeParts(a.size) && q[1..7] == SizeParts(b.size);
    assert p[7..] == MaskParts(a.mask, a.maskCid) + CropParts(a.crop) &&
           q[7..] == MaskParts(b.mask, b.maskCid) + CropParts(b.crop);
    SizePartsInjective(a.size, b.size);
    TailInjective(a, b);
  }

  /** No preview is recorded where a redrawn mask is: neither a variant of a bundle nor a file of its own. */
  lemma KeysAreNoMasks(r: Request, cid: string, variant: string)
    requires Proper(r) && Slashless(cid) && Slashless(variant)
    ensures PreviewKey(r) != VariantOverrideKey(cid, variant)
  {
    PartsSlashless(r);
    SplitOfJoin(KeyParts(r), '/');
    assert |Split(PreviewKey(r), '/')| >= 7;
    SplitFirst(cid, variant, '/');
    SplitFirst(variant, "", '/');
  }

  /** Redrawn masks of different variants have different keys. */
  lemma MaskKeysAreInjective(a: string, v: string, b: string, w: string)
    requires Slashless(a) && Slashless(b) && Slashless(v) && Slashless(w)
    requires VariantOverrideKey(a, v) == VariantOverrideKey(b, w)
    ensures a == b && v == w
  {
    SplitFirst(a, v, '/');
    SplitFirst(b, w, '/');
    SplitFirst(v, "", '/');
    SplitFirst(w, "", '/');
    var p, q := Split(VariantOverrideKey(a, v), '/'), Split(VariantOverrideKey(b, w), '/');
    assert p[0] == a && q[0] == b;
    assert v != "" ==> p[1] == v;
    assert w != "" ==> q[1] == w;
  }
}

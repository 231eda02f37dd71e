/** Which rendition of a picture a viewer gets: the policy's rows folded to one mode, and the choice made with it. */
module Delivery {
  import opened Modes
  import opened Options
  import opened Text

  // ---------- Folding the rows ----------

  /** A row's mode, if it names one. */
  type Row = Option<string>

  predicate IsValid(row: Row) { row.Some? && IsMode(row.value) }

  /** The mode is one of the rows', and none hides more. */
  ghost predicate IsStrictest(mode: string, rows: seq<Row>) {
    && IsMode(mode)
    && (exists row <- rows :: row == Some(mode))
    && forall row <- rows :: IsValid(row) && Level(row.value) <= Level(mode)
  }

  method Resolve(rows: seq<Row>) returns (r: Option<string>)
    ensures r.Some? <==> rows != [] && forall row <- rows :: IsValid(row)
    ensures r.Some? ==> IsStrictest(r.value, rows)
  {
    if |rows| == 0 {
      return None;
    }
    var mode := ORIGINAL;
    for i := 0 to |rows|
      invariant IsMode(mode)
      invariant forall j :: 0 <= j < i ==> IsValid(rows[j]) && Level(rows[j].value) <= Level(mode)
      invariant mode == ORIGINAL || exists j :: 0 <= j < i && rows[j] == Some(mode)
    {
      assert rows[i] in rows;
      if rows[i].None? {
        return None;
      }
      var candidate := rows[i].value;
      if candidate == DENY {
        mode := DENY;
      } else if candidate == BLUR {
        if mode != DENY {
          mode := BLUR;
        }
      } else if candidate == BLUR_FACES {
        if mode != BLUR && mode != DENY {
          mode := BLUR_FACES;
        }
      } else if candidate != ORIGINAL {
        return None;
      }
    }
    if mode == ORIGINAL {
      assert rows[0] in rows && IsValid(rows[0]);
      ModesAreLevels(rows[0].value, ORIGINAL);
    }
    assert Some(mode) in rows;
    return Some(mode);
  }

  lemma ModesAreLevels(a: string, b: string)
    requires IsMode(a) && IsMode(b) && Level(a) == Level(b)
    ensures a == b
  {
  }

  /** The rows decide the mode whatever their order, and however often they are repeated. */
  lemma OrderDoesNotMatter(rows: seq<Row>, others: seq<Row>, a: string, b: string)
    requires forall row :: row in rows <==> row in others
    requires IsStrictest(a, rows) && IsStrictest(b, others)
    ensures a == b
  {
    ModesAreLevels(a, b);
  }

  // ---------- Choosing what to serve ----------

  datatype Served =
    | Refused
    | Bundle
    | Preview(size: string, mask: string, crop: bool)
    | File(variant: string)

  const FALLBACK := "fit_1024"

  method Choose(parts: seq<string>, decision: Decision, image: bool, variants: set<string>,
                configured: string -> bool) returns (r: Served)
    ensures r == Chosen(parts, decision, image, variants, configured)
    ensures !decision.managed || decision.mode != "" ==> IsChoice(r, parts, decision, image, variants, configured)
  {
    if !decision.managed || decision.mode != "" {
      ChosenMeaning(parts, decision, image, variants, configured);
    }
    if parts == ["bundle"] {
      if decision.managed && decision.mode != ORIGINAL {
        return Refused;
      }
      return Bundle;
    }
    var variantKey := "";
    if |parts| == 1 && parts[0] != "" {
      variantKey := parts[0];
    }
    var requestedMask := "";
    if |parts| == 2 {
      if !configured(parts[0]) || (parts[1] != BLUR && parts[1] != BLUR_FACES) {
        return Refused;
      }
      variantKey := parts[0];
      requestedMask := parts[1];
    } else if |parts| > 2 {
      return Refused;
    }
    var cropped := decision.cropped;
    if cropped && image {
      if !configured(variantKey) {
        variantKey := FALLBACK;
      }
      if !configured(variantKey) {
        cropped := false;
      }
    } else {
      cropped := false;
    }
    if configured(variantKey) {
      var sourceVariant := requestedMask;
      if decision.managed && decision.mode != ORIGINAL {
        if decision.mode == BLUR || sourceVariant != BLUR {
          sourceVariant := decision.mode;
        }
      }
      if sourceVariant != "" || variantKey !in variants || cropped {
        return Preview(variantKey, sourceVariant, cropped);
      }
    }
    if decision.managed && decision.mode != ORIGINAL {
      variantKey := decision.mode;
    }
    if variantKey != "" && variantKey !in variants {
      return Refused;
    }
    if variantKey == "" && |parts| > 1 {
      return Refused;
    }
    return File(variantKey);
  }

  /** The mask that the address asks for. */
  function Requested(parts: seq<string>): string { if |parts| == 2 then parts[1] else "" }

  /** Whether the policy hides anything. */
  predicate Hides(d: Decision) { d.managed && d.mode != ORIGINAL }

  function MaskFor(d: Decision, requested: string): string {
    if Hides(d) && (d.mode == BLUR || requested != BLUR) then d.mode else requested
  }

  function Sized(parts: seq<string>, d: Decision, image: bool, configured: string -> bool): string {
    var asked := if |parts| == 1 || |parts| == 2 then parts[0] else "";
    if d.cropped && image && !configured(asked) then FALLBACK else asked
  }

  function Chosen(parts: seq<string>, d: Decision, image: bool, variants: set<string>,
                  configured: string -> bool): Served {
    var size, mask := Sized(parts, d, image, configured), MaskFor(d, Requested(parts));
    var crop := d.cropped && image && configured(size);
    if parts == ["bundle"] then if Hides(d) then Refused else Bundle
    else if |parts| > 2 ||
            (|parts| == 2 && (!configured(parts[0]) || (parts[1] != BLUR && parts[1] != BLUR_FACES))) then Refused
    else if configured(size) && (mask != "" || size !in variants || crop) then Preview(size, mask, crop)
    else
      var key := if Hides(d) then d.mode else size;
      if (key != "" && key !in variants) || (key == "" && |parts| > 1) then Refused else File(key)
  }

  // ---------- What a choice may be ----------

  /** The size or variant that the address names. */
  function Asked(parts: seq<string>): string { if |parts| == 1 || |parts| == 2 then parts[0] else "" }

  /** The picture is to be cut to its frame, and there is a size to cut it at. */
  predicate IsFramed(parts: seq<string>, d: Decision, image: bool, configured: string -> bool) {
    d.cropped && image && (configured(Asked(parts)) || configured("fit_1024"))
  }

  predicate IsMaskedRequest(parts: seq<string>, configured: string -> bool) {
    |parts| == 2 && configured(parts[0]) && (parts[1] == "blur" || parts[1] == "blur_faces")
  }

  /** The variant that is served whole: the one asked for, and where a frame can be cut at no size, the fallback. */
  function Unframed(parts: seq<string>, d: Decision, image: bool): string {
    if d.cropped && image then "fit_1024" else Asked(parts)
  }

  /** A preview is at the configured size asked for, else at the fallback, and cut exactly where a frame is shown. */
  predicate IsGoodPreview(size: string, crop: bool, parts: seq<string>, d: Decision, image: bool,
                          configured: string -> bool) {
    && size == (if configured(Asked(parts)) then Asked(parts) else "fit_1024") && configured(size)
    && (crop <==> IsFramed(parts, d, image, configured))
    && (configured(Asked(parts)) || crop)
  }

  /** What may be chosen at all: each kind of answer with the cases in which it is the right one. */
  predicate IsChoice(r: Served, parts: seq<string>, d: Decision, image: bool, variants: set<string>,
                     configured: string -> bool) {
    && (r.Bundle? <==> parts == ["bundle"] && !Hides(d))
    && match r
       case Refused =>
         || (parts == ["bundle"] && Hides(d)) || |parts| > 2
         || (|parts| == 2 && !IsMaskedRequest(parts, configured))
         || (Hides(d) && !configured(Asked(parts)) && d.mode !in variants)
         || (!Hides(d) && !configured(Asked(parts)) && Unframed(parts, d, image) !in variants + {""})
       case Bundle => true
       case Preview(size, mask, crop) =>
         && IsGoodPreview(size, crop, parts, d, image, configured)
         && (mask != "" || size !in variants || crop) && (|parts| == 2 ==> IsMaskedRequest(parts, configured))
       case File(v) =>
         && !IsFramed(parts, d, image, configured) && |parts| < 2 && (v == "" || v in variants)
         && (if Hides(d) then v == d.mode && !configured(Asked(parts)) else v == Unframed(parts, d, image))
  }

  lemma ChosenMeaning(parts: seq<string>, d: Decision, image: bool, variants: set<string>, configured: string -> bool)
    requires !d.managed || d.mode != ""
    ensures IsChoice(Chosen(parts, d, image, variants, configured), parts, d, image, variants, configured)
  {
  }

  /** The level of a mask in a preview, where no mask hides nothing. */
  function MaskLevel(mask: string): Option<nat> { if mask == "" then Some(0) else Strictness(mask) }

  /** The mask hides as much as the mode and as much as the requested mask, and no more than one of them. */
  predicate IsStricter(mask: string, mode: string, requested: string)
    requires MaskLevel(mask).Some? && IsMode(mode) && MaskLevel(requested).Some?
  {
    var a, b := Level(mode), MaskLevel(requested).value;
    MaskLevel(mask).value == if a < b then b else a
  }

  /**
   A preview is made of the stricter of the policy's mode and the requested mask, except in one case: where the
   policy denies and a full blur is requested, the blur is taken.
   */
  lemma PreviewTakesStricter(parts: seq<string>, d: Decision, image: bool, variants: set<string>,
                             configured: string -> bool)
    requires IsMode(d.mode) && Chosen(parts, d, image, variants, configured).Preview?
    ensures MaskLevel(Requested(parts)).Some? && MaskLevel(Chosen(parts, d, image, variants, configured).mask).Some?
    ensures d.managed ==>
              (IsStricter(Chosen(parts, d, image, variants, configured).mask, d.mode, Requested(parts))
               <==> !(d.mode == DENY && Requested(parts) == BLUR))
    ensures !d.managed ==> Chosen(parts, d, image, variants, configured).mask == Requested(parts)
  {
  }

  /** The one case: a denied file, requested at a configured size with a full blur. */
  lemma DeniedFileIsBlurred()
    ensures Chosen(["thumb", BLUR], Decision(true, DENY, "", false, false), true, {}, s => s == "thumb")
         == Preview("thumb", BLUR, false)
  {
    var parts := ["thumb", BLUR];
    assert parts[0] == "thumb" && parts[1] == BLUR && BLUR != DENY;
  }

  /** Nothing less hidden than the policy's mode is served, except in that one case. */
  lemma NeverLessThanPolicy(parts: seq<string>, d: Decision, image: bool, variants: set<string>,
                            configured: string -> bool)
    requires IsMode(d.mode) && Hides(d) && !(d.mode == DENY && Requested(parts) == BLUR)
    ensures match Chosen(parts, d, image, variants, configured)
            case Refused => true
            case Bundle => false
            case Preview(_, mask, _) => IsMode(mask) && Level(mask) >= Level(d.mode)
            case File(variant) => variant == d.mode
  {
  }

  /** A requested mask is never dropped. */
  lemma RequestedMaskIsKept(parts: seq<string>, d: Decision, image: bool, variants: set<string>,
                            configured: string -> bool)
    requires IsMode(d.mode) && |parts| == 2
    ensures var s := Chosen(parts, d, image, variants, configured);
            s.Refused? || (s.Preview? && MaskLevel(s.mask).Some? &&
                           MaskLevel(s.mask).value >= MaskLevel(Requested(parts)).value)
  {
  }

  // ---------- Cached files ----------

  /** The key under which the bytes of a file are cached. */
  function CacheKey(cid: string, path: string): string { cid + ['/'] + path }

  /** Different files have different keys. */
  lemma CacheKeysAreInjective(a: string, p: string, b: string, q: string)
    requires '/' !in a && '/' !in b && CacheKey(a, p) == CacheKey(b, q)
    ensures a == b && p == q
  {
    SplitFirst(a, p, '/');
    SplitFirst(b, q, '/');
    assert Split(CacheKey(a, p), '/')[0] == a && Split(CacheKey(b, q), '/')[0] == b;
    assert CacheKey(a, p)[|a| + 1..] == p && CacheKey(b, q)[|b| + 1..] == q;
  }
}

/**
 Sized previews of stored images, each drawn once and recorded.  Contents are immutable: `World` tells what is
 stored, what drawing gives and where drawn bytes are found again; which calls fail is decided per request.
 */
module Previews {
  import opened Bytes
  import opened Options
  import opened PreviewKeys
  import opened Text

  // ---------- The store of replacements ----------

  /** The replacements in force, and those that are on disk. */
  datatype Records = Records(entries: map<string, string>, saved: map<string, string>)

  /** A replacement comes into force; whether it also reaches the disk depends on the write. */
  function Replaced(records: Records, key: string, cid: string, writes: bool): Records {
    var entries := records.entries[key := cid];
    Records(entries, if writes then entries else records.saved)
  }

  /** A new process knows what is on disk. */
  function Restarted(records: Records): Records { Records(records.saved, records.saved) }

  /** Files that stand in for others. */
  class VariantOverrides {
    var entries: map<string, string>
    var saved: map<string, string>

    ghost function State(): Records
      reads this
    {
      Records(entries, saved)
    }

    constructor (saved: map<string, string>)
      ensures State() == Restarted(Records(saved, saved))
    {
      entries, this.saved := saved, saved;
    }

    method Get(key: string) returns (cid: string, ok: bool)
      ensures ok <==> Recorded(entries, key) != ""
      ensures ok ==> cid == Recorded(entries, key)
      ensures !ok ==> cid == ""
    {
      cid := if key in entries then entries[key] else "";
      ok := key in entries && cid != "";
    }

    /** A failed write is reported, but the replacement is in force all the same. */
    method Set(key: string, cid: string, writes: bool) returns (ok: bool)
      modifies this
      ensures State() == Replaced(old(State()), key, cid, writes) && ok == writes
    {
      entries := entries[key := cid];
      if writes {
        saved := entries;
      }
      ok := writes;
    }
  }

  function Recorded(entries: map<string, string>, key: string): string { if key in entries then entries[key] else "" }

  predicate InStep(records: Records) { records.entries == records.saved }

  /**
   Memory and disk agree afterwards exactly when the write succeeded, or when the disk has that value for the key and
   agreed on all others before.
   */
  lemma InStepIff(records: Records, key: string, cid: string, writes: bool)
    ensures InStep(Replaced(records, key, cid, writes))
       <==> writes || (key in records.saved && records.saved[key] == cid
                       && records.saved - {key} == records.entries - {key})
    ensures InStep(records) ==>
              (InStep(Replaced(records, key, cid, writes)) <==> writes || (key, cid) in records.entries.Items)
  {
    var rest := records.entries - {key};
    assert records.entries[key := cid] - {key} == rest;
    if key in records.saved && records.saved[key] == cid && records.saved - {key} == rest {
      assert records.saved == rest[key := cid];
      assert records.entries[key := cid] == rest[key := cid];
    }
  }

  /** A call of `Set`, and whether it reaches the disk. */
  datatype Write = Write(key: string, cid: string, writes: bool)

  function AllReplaced(records: Records, calls: seq<Write>): Records
    decreases |calls|
  {
    if calls == [] then records
    else
      var last := calls[|calls| - 1];
      Replaced(AllReplaced(records, calls[..|calls| - 1]), last.key, last.cid, last.writes)
  }

  /**
   A replacement outlives a restart exactly when it was written, or any later one was before the restart, or when the
   disk said the same before.
   */
  lemma {:induction false} OutlivesRestartIff(records: Records, key: string, cid: string, writes: bool,
                                              calls: seq<Write>)
    requires cid != "" && forall call <- calls :: call.key != key
    ensures var after := AllReplaced(Replaced(records, key, cid, writes), calls);
            && Recorded(after.entries, key) == cid
            && (Recorded(Restarted(after).entries, key) == cid
                <==> writes || (exists call <- calls :: call.writes) || Recorded(records.saved, key) == cid)
  {
    if calls != [] {
      var front, last := calls[..|calls| - 1], calls[|calls| - 1];
      assert calls == front + [last];
      OutlivesRestartIff(records, key, cid, writes, front);
    }
  }

  // ---------- What a preview is ----------

  /** The part of a picture that is shown, as fractions. */
  datatype Frame = Frame(x: real, y: real, w: real, h: real)

  /** A fraction to four decimals, as it is printed: to the nearest, and to the even one of two. */
  function Round4(x: real): nat {
    if x <= 0.0 then 0
    else
      var n := (x * 10000.0).Floor;
      var rest := x * 10000.0 - n as real;
      if rest < 0.5 || (rest == 0.5 && n % 2 == 0) then n else n + 1
  }

  function KeyCrop(frame: Option<Frame>): Option<Crop> {
    match frame
    case None => None
    case Some(f) => Some(Crop(Round4(f.x), Round4(f.y), Round4(f.w), Round4(f.h)))
  }

  /** What is stored, what drawing gives, and where drawn bytes are found again. */
  datatype World = World(
    content: (string, string) -> seq<Byte>,
    drawn: (seq<Byte>, Size, Option<Frame>) -> seq<Byte>,
    address: seq<Byte> -> string)

  /** Which of the calls of one request succeed. */
  datatype Luck = Luck(fetches: bool, draws: bool, adds: bool, saves: bool)

  datatype Bundle = Bundle(image: bool, original: string, variants: map<string, string>)

  type Bundles = string -> Bundle

  /** A size as configured; without positive width and height it is none. */
  datatype Variant = Variant(key: string, width: int, height: int, mode: string)

  datatype Settings = Settings(enabled: bool, variants: seq<Variant>, policy: string, quality: nat)

  const MAX_SOURCE := 100 * 1024 * 1024

  /** Where a preview comes from: the redrawn mask when there is one, else a file of the bundle. */
  function SourceOf(r: Request, bundle: Bundle, world: World): seq<Byte> {
    if r.maskCid != "" then world.content(r.maskCid, "")
    else if r.mask != "" then world.content(r.cid, if r.mask in bundle.variants then bundle.variants[r.mask] else "")
    else world.content(r.cid, bundle.original)
  }

  /** The preview drawn for a request in a frame. */
  function Own(r: Request, frame: Option<Frame>, bundles: Bundles, world: World): string {
    world.address(world.drawn(SourceOf(r, bundles(r.cid), world), r.size, frame))
  }

  /** The frames that requests are made with. */
  type Frames = Option<Frame> -> bool

  /** The file is the preview of the request's source at its size, in one of the frames that have the request's key. */
  ghost predicate IsPreview(file: string, r: Request, bundles: Bundles, world: World, frames: Frames) {
    exists frame :: frames(frame) && KeyCrop(frame) == r.crop && file == Own(r, frame, bundles, world)
  }

  /** All previews on record are what their keys say. */
  ghost predicate Truthful(entries: map<string, string>, bundles: Bundles, world: World, frames: Frames) {
    forall r: Request :: Proper(r) && Recorded(entries, PreviewKey(r)) != "" ==>
      IsPreview(Recorded(entries, PreviewKey(r)), r, bundles, world, frames)
  }

  lemma PreviewKept(entries: map<string, string>, r: Request, frame: Option<Frame>, bundles: Bundles, world: World,
                    frames: Frames)
    requires Truthful(entries, bundles, world, frames) && Proper(r) && frames(frame) && KeyCrop(frame) == r.crop
    ensures IsPreview(Own(r, frame, bundles, world), r, bundles, world, frames)
    ensures Truthful(entries[PreviewKey(r) := Own(r, frame, bundles, world)], bundles, world, frames)
  {
    var after := entries[PreviewKey(r) := Own(r, frame, bundles, world)];
    forall q: Request | Proper(q) && Recorded(after, PreviewKey(q)) != ""
      ensures IsPreview(Recorded(after, PreviewKey(q)), q, bundles, world, frames)
    {
      if PreviewKey(q) == PreviewKey(r) {
        KeysAreInjective(q, r);
      } else {
        assert Recorded(after, PreviewKey(q)) == Recorded(entries, PreviewKey(q));
      }
    }
  }

  lemma MaskKept(entries: map<string, string>, cid: string, variant: string, file: string, bundles: Bundles,
                 world: World, frames: Frames)
    requires Truthful(entries, bundles, world, frames) && Slashless(cid) && Slashless(variant)
    ensures Truthful(entries[VariantOverrideKey(cid, variant) := file], bundles, world, frames)
  {
    var after := entries[VariantOverrideKey(cid, variant) := file];
    forall q: Request | Proper(q) && Recorded(after, PreviewKey(q)) != ""
      ensures IsPreview(Recorded(after, PreviewKey(q)), q, bundles, world, frames)
    {
      KeysAreNoMasks(q, cid, variant);
      assert Recorded(after, PreviewKey(q)) == Recorded(entries, PreviewKey(q));
    }
  }

  // ---------- A request ----------

  predicate Usable(v: Variant, variant: string) { v.key == variant && v.width > 0 && v.height > 0 }

  /** The first usable size of that name. */
  function Configured(variants: seq<Variant>, variant: string): Option<Variant> {
    if variants == [] then None
    else if Usable(variants[0], variant) then Some(variants[0])
    else Configured(variants[1..], variant)
  }

  method ConfiguredPreview(settings: Settings, variant: string) returns (r: Option<Variant>)
    ensures r == if settings.enabled then Configured(settings.variants, variant) else None
    ensures r.Some? ==> settings.enabled && r.value in settings.variants && Usable(r.value, variant)
    ensures r.None? ==> !settings.enabled || forall v <- settings.variants :: !Usable(v, variant)
  {
    ConfiguredIsUsable(settings.variants, variant);
    if !settings.enabled {
      return None;
    }
    var variants := settings.variants;
    for i := 0 to |variants|
      invariant Configured(variants, variant) == Configured(variants[i..], variant)
    {
      assert variants[i..][0] == variants[i] && variants[i..][1..] == variants[i + 1..];
      if variants[i].key == variant && variants[i].width > 0 && variants[i].height > 0 {
        return Some(variants[i]);
      }
    }
    return None;
  }

  lemma {:induction false} ConfiguredIsUsable(variants: seq<Variant>, variant: string)
    ensures Configured(variants, variant).Some? ==>
              Configured(variants, variant).value in variants && Usable(Configured(variants, variant).value, variant)
    ensures Configured(variants, variant).None? ==> forall v <- variants :: !Usable(v, variant)
  {
    if variants != [] && !Usable(variants[0], variant) {
      ConfiguredIsUsable(variants[1..], variant);
    }
  }

  function SizeOf(v: Variant, settings: Settings): Size {
    var width, height := if v.width > 0 then v.width else 0, if v.height > 0 then v.height else 0;
    Size(v.key, width, height, v.mode, settings.policy, settings.quality)
  }

  /** What the request asks for, given the replacements in force. */
  function Asked(size: Size, cid: string, mask: string, frame: Option<Frame>, entries: map<string, string>): Request {
    var maskCid := if mask == "" then "" else Recorded(entries, VariantOverrideKey(cid, mask));
    Request(cid, size, mask, maskCid, KeyCrop(frame))
  }

  datatype Outcome = Outcome(records: Records, answer: Option<string>)

  /**
   The preview on record, or else one that is drawn now and recorded.  When recording it fails the answer is a
   failure, though the preview is in force from then on.
   */
  function Ensured(records: Records, q: Request, frame: Option<Frame>, bundles: Bundles, world: World,
                   luck: Luck): Outcome {
    var found, file := Recorded(records.entries, PreviewKey(q)), Own(q, frame, bundles, world);
    if found != "" then
      Outcome(records, Some(found))
    else if !luck.fetches || |SourceOf(q, bundles(q.cid), world)| > MAX_SOURCE || !luck.draws || !luck.adds then
      Outcome(records, None)
    else
      Outcome(Replaced(records, PreviewKey(q), file, luck.saves), if luck.saves then Some(file) else None)
  }

  /**
   The bytes that a preview is drawn from: the file that stands in for the mask, if there is one, else the mask's own
   file of the bundle, and without a mask the original.
   */
  function Drawable(cid: string, mask: string, entries: map<string, string>, bundles: Bundles, world: World): seq<Byte>
    requires mask == "" || mask in bundles(cid).variants
  {
    var key := VariantOverrideKey(cid, mask);
    if mask == "" then world.content(cid, bundles(cid).original)
    else if key in entries && entries[key] != "" then world.content(entries[key], "")
    else world.content(cid, bundles(cid).variants[mask])
  }

  /** The file is that picture at the size and in the frame, up to frames that print alike. */
  ghost predicate IsPictureOf(file: string, source: seq<Byte>, size: Size, frame: Option<Frame>, world: World,
                              frames: Frames) {
    exists f :: frames(f) && KeyCrop(f) == KeyCrop(frame) && file == world.address(world.drawn(source, size, f))
  }

  lemma PreviewMeaning(file: string, size: Size, cid: string, mask: string, frame: Option<Frame>,
                       entries: map<string, string>, bundles: Bundles, world: World, frames: Frames)
    requires mask == "" || mask in bundles(cid).variants
    requires IsPreview(file, Asked(size, cid, mask, frame, entries), bundles, world, frames)
    ensures IsPictureOf(file, Drawable(cid, mask, entries, bundles, world), size, frame, world, frames)
  {
    var q := Asked(size, cid, mask, frame, entries);
    var f :| frames(f) && KeyCrop(f) == q.crop && file == Own(q, f, bundles, world);
    assert SourceOf(q, bundles(cid), world) == Drawable(cid, mask, entries, bundles, world);
  }

  /** A request is answered exactly when its preview is on record or all that drawing one takes succeeds. */
  lemma AnsweredIff(records: Records, size: Size, cid: string, mask: string, frame: Option<Frame>, bundles: Bundles,
                    world: World, luck: Luck)
    requires mask == "" || mask in bundles(cid).variants
    ensures var q := Asked(size, cid, mask, frame, records.entries);
            (Ensured(records, q, frame, bundles, world, luck).answer.Some?
             <==> || (PreviewKey(q) in records.entries && records.entries[PreviewKey(q)] != "")
                  || (luck == Luck(true, true, true, true)
                      && |Drawable(cid, mask, records.entries, bundles, world)| <= 100 * 1024 * 1024))
  {
  }

  /** Whether a request can be answered at all. */
  predicate Answerable(settings: Settings, variant: string, mask: string, bundle: Bundle) {
    settings.enabled && Configured(settings.variants, variant).Some? && bundle.image &&
    (mask != "" ==> mask in bundle.variants)
  }

  method EnsureConfiguredPreview(overrides: VariantOverrides, settings: Settings, bundles: Bundles, cid: string,
                                 variant: string, mask: string, frame: Option<Frame>, world: World, luck: Luck)
    returns (r: Option<string>)
    modifies overrides
    ensures !Answerable(settings, variant, mask, bundles(cid)) ==>
              r == None && overrides.State() == old(overrides.State())
    ensures Answerable(settings, variant, mask, bundles(cid)) ==>
              var was, now := old(overrides.State()), overrides.State();
              Outcome(now, r) == EnsuredNow(was, settings, variant, bundles, cid, mask, frame, world, luck)
  {
    var size := ConfiguredPreview(settings, variant);
    var bundle := bundles(cid);
    if size.None? || !bundle.image {
      return None;
    }
    var maskCid := "";
    if mask != "" {
      if mask !in bundle.variants {
        return None;
      }
      var redrawn;
      maskCid, redrawn := overrides.Get(VariantOverrideKey(cid, mask));
    }
    var q := Request(cid, SizeOf(size.value, settings), mask, maskCid, KeyCrop(frame));
    var key := BuildPreviewKey(q);
    var found, ok := overrides.Get(key);
    if ok {
      return Some(found);
    }
    if !luck.fetches {
      return None;
    }
    var source := SourceOf(q, bundle, world);
    if |source| > MAX_SOURCE || !luck.draws || !luck.adds {
      return None;
    }
    var file := world.address(world.drawn(source, q.size, frame));
    ok := overrides.Set(key, file, luck.saves);
    return if ok then Some(file) else None;
  }

  function EnsuredNow(records: Records, settings: Settings, variant: string, bundles: Bundles, cid: string,
                      mask: string, frame: Option<Frame>, world: World, luck: Luck): Outcome
    requires Configured(settings.variants, variant).Some?
  {
    var size := SizeOf(Configured(settings.variants, variant).value, settings);
    Ensured(records, Asked(size, cid, mask, frame, records.entries), frame, bundles, world, luck)
  }

  // ---------- Runs ----------

  /** A mask is redrawn, some request, however long ago it began, records what it drew, or the process starts anew. */
  datatype Step =
    | Redraw(cid: string, variant: string, file: string, writes: bool)
    | Store(request: Request, frame: Option<Frame>, writes: bool)
    | Restart

  predicate Allowed(step: Step, frames: Frames) {
    match step
    case Redraw(cid, variant, _, _) => Slashless(cid) && Slashless(variant)
    case Store(r, frame, _) => Proper(r) && frames(frame) && KeyCrop(frame) == r.crop
    case Restart => true
  }

  function Next(records: Records, step: Step, bundles: Bundles, world: World): Records {
    match step
    case Redraw(cid, variant, file, writes) => Replaced(records, VariantOverrideKey(cid, variant), file, writes)
    case Store(r, frame, writes) => Replaced(records, PreviewKey(r), Own(r, frame, bundles, world), writes)
    case Restart => Restarted(records)
  }

  /** A run begins with what an earlier one left on disk. */
  ghost predicate IsRun(h: seq<Records>, steps: seq<Step>, bundles: Bundles, world: World, frames: Frames) {
    && |h| == |steps| + 1 && h[0] == Restarted(h[0]) && Truthful(h[0].saved, bundles, world, frames)
    && forall k :: 0 <= k < |steps| ==> Allowed(steps[k], frames) && h[k + 1] == Next(h[k], steps[k], bundles, world)
  }

  lemma NothingIsTruthful(bundles: Bundles, world: World, frames: Frames)
    ensures Truthful(map[], bundles, world, frames)
  {
  }

  /** Records in force and on disk are what their keys say. */
  ghost predicate BothTruthful(records: Records, bundles: Bundles, world: World, frames: Frames) {
    Truthful(records.entries, bundles, world, frames) && Truthful(records.saved, bundles, world, frames)
  }

  lemma StepStaysTruthful(records: Records, step: Step, bundles: Bundles, world: World, frames: Frames)
    requires BothTruthful(records, bundles, world, frames) && Allowed(step, frames)
    ensures BothTruthful(Next(records, step, bundles, world), bundles, world, frames)
  {
    match step {
      case Redraw(cid, variant, file, _) => MaskKept(records.entries, cid, variant, file, bundles, world, frames);
      case Store(r, frame, _) => PreviewKept(records.entries, r, frame, bundles, world, frames);
      case Restart =>
    }
  }

  lemma {:induction false} RunsStayTruthful(h: seq<Records>, steps: seq<Step>, bundles: Bundles, world: World,
                                            frames: Frames, k: nat)
    requires IsRun(h, steps, bundles, world, frames) && k < |h|
    ensures BothTruthful(h[k], bundles, world, frames)
  {
    if k > 0 {
      RunsStayTruthful(h, steps, bundles, world, frames, k - 1);
      StepStaysTruthful(h[k - 1], steps[k - 1], bundles, world, frames);
    }
  }

  /** What a request does to the records is nothing, or a step of a run. */
  lemma RequestIsStep(records: Records, q: Request, frame: Option<Frame>, bundles: Bundles, world: World,
                      frames: Frames, luck: Luck)
    requires Proper(q) && frames(frame) && KeyCrop(frame) == q.crop
    ensures var after := Ensured(records, q, frame, bundles, world, luck).records;
            after == records ||
            (after == Next(records, Store(q, frame, luck.saves), bundles, world) &&
             Allowed(Store(q, frame, luck.saves), frames))
  {
  }

  /** A request whose preview is drawn but not written to disk fails, and the next one is sent that preview. */
  lemma FailedIsAnsweredNext(records: Records, q: Request, frame: Option<Frame>, bundles: Bundles, world: World,
                             luck: Luck, later: Option<Frame>, again: Luck)
    requires Recorded(records.entries, PreviewKey(q)) == "" && Addressed(world)
    requires luck == Luck(true, true, true, false) && |SourceOf(q, bundles(q.cid), world)| <= MAX_SOURCE
    ensures var failed := Ensured(records, q, frame, bundles, world, luck);
            && failed.answer == None
            && Ensured(failed.records, q, later, bundles, world, again)
            == Outcome(failed.records, Some(Own(q, frame, bundles, world)))
  {
  }

  /**
   At every moment of every run the answer to a request is the preview of the mask in force at that moment, at the
   configured size, in a frame with the request's key.
   */
  lemma PreviewFollowsMask(h: seq<Records>, steps: seq<Step>, bundles: Bundles, world: World, frames: Frames, k: nat,
                           size: Size, cid: string, mask: string, frame: Option<Frame>, luck: Luck)
    requires IsRun(h, steps, bundles, world, frames) && k < |h| && frames(frame)
    requires Proper(Asked(size, cid, mask, frame, h[k].entries))
    ensures var q := Asked(size, cid, mask, frame, h[k].entries);
            var answer := Ensured(h[k], q, frame, bundles, world, luck).answer;
            && (answer.Some? ==> IsPreview(answer.value, q, bundles, world, frames))
            && (mask != "" ==> q.maskCid == Recorded(h[k].entries, VariantOverrideKey(cid, mask)))
            && (answer.Some? && (mask == "" || mask in bundles(cid).variants) ==>
                  IsPictureOf(answer.value, Drawable(cid, mask, h[k].entries, bundles, world), size, frame, world,
                              frames))
  {
    RunsStayTruthful(h, steps, bundles, world, frames, k);
    var answer := Ensured(h[k], Asked(size, cid, mask, frame, h[k].entries), frame, bundles, world, luck).answer;
    if answer.Some? && (mask == "" || mask in bundles(cid).variants) {
      PreviewMeaning(answer.value, size, cid, mask, frame, h[k].entries, bundles, world, frames);
    }
  }

  /** After a redraw to another file, what was recorded for the old mask is no longer looked up. */
  lemma RedrawChangesKey(entries: map<string, string>, cid: string, mask: string, file: string, size: Size,
                         frame: Option<Frame>)
    requires mask != "" && Recorded(entries, VariantOverrideKey(cid, mask)) != file
    requires Proper(Asked(size, cid, mask, frame, entries))
    requires Proper(Asked(size, cid, mask, frame, entries[VariantOverrideKey(cid, mask) := file]))
    ensures PreviewKey(Asked(size, cid, mask, frame, entries))
         != PreviewKey(Asked(size, cid, mask, frame, entries[VariantOverrideKey(cid, mask) := file]))
  {
    var a, b := Asked(size, cid, mask, frame, entries),
                Asked(size, cid, mask, frame, entries[VariantOverrideKey(cid, mask) := file]);
    if PreviewKey(a) == PreviewKey(b) {
      KeysAreInjective(a, b);
    }
  }

  // ---------- Whose frame ----------

  /** Requests in frames with one key get one picture, whichever of them drew it. */
  ghost predicate EqualKeysDrawEqually(bundles: Bundles, world: World, frames: Frames) {
    forall r: Request, f, g :: Proper(r) && frames(f) && frames(g) && KeyCrop(f) == r.crop && KeyCrop(g) == r.crop ==>
      Own(r, f, bundles, world) == Own(r, g, bundles, world)
  }

  /** Every answer, at any moment of any run, is drawn in the frame of the request that gets it. */
  ghost predicate AnswersAreOwn(bundles: Bundles, world: World, frames: Frames) {
    forall h: seq<Records>, steps: seq<Step> :: IsRun(h, steps, bundles, world, frames) ==>
      RunAnswersOwn(h, bundles, world, frames)
  }

  ghost predicate RunAnswersOwn(h: seq<Records>, bundles: Bundles, world: World, frames: Frames) {
    forall k: nat, r: Request, frame, luck :: k < |h| && Proper(r) && frames(frame) && KeyCrop(frame) == r.crop ==>
      OwnOrNone(Ensured(h[k], r, frame, bundles, world, luck).answer, Own(r, frame, bundles, world))
  }

  predicate OwnOrNone(answer: Option<string>, own: string) { answer == None || answer == Some(own) }

  /** An address is never empty. */
  ghost predicate Addressed(world: World) { forall b :: world.address(b) != "" }

  /** The run in which one request is recorded before another asks. */
  lemma OneStore(r: Request, g: Option<Frame>, bundles: Bundles, world: World, frames: Frames)
    requires Proper(r) && frames(g) && KeyCrop(g) == r.crop
    ensures var empty := Records(map[], map[]);
            IsRun([empty, Next(empty, Store(r, g, true), bundles, world)], [Store(r, g, true)], bundles, world, frames)
  {
    NothingIsTruthful(bundles, world, frames);
  }

  /** Every answer is in its own frame exactly when frames with equal keys draw equally. */
  lemma AnswersAreOwnIff(bundles: Bundles, world: World, frames: Frames)
    requires Addressed(world)
    ensures AnswersAreOwn(bundles, world, frames) <==> EqualKeysDrawEqually(bundles, world, frames)
  {
    if AnswersAreOwn(bundles, world, frames) {
      forall r: Request, f, g | Proper(r) && frames(f) && frames(g) && KeyCrop(f) == r.crop && KeyCrop(g) == r.crop
        ensures Own(r, f, bundles, world) == Own(r, g, bundles, world)
      {
        SecondGetsFirst(r, f, g, bundles, world, frames);
      }
    }
    if EqualKeysDrawEqually(bundles, world, frames) {
      forall h: seq<Records>, steps: seq<Step> | IsRun(h, steps, bundles, world, frames)
        ensures RunAnswersOwn(h, bundles, world, frames)
      {
        EqualDrawingIsOwn(h, steps, bundles, world, frames);
      }
    }
  }

  /** A request gets what was drawn before for another frame with the same key. */
  lemma SecondGetsFirst(r: Request, f: Option<Frame>, g: Option<Frame>, bundles: Bundles, world: World, frames: Frames)
    requires Proper(r) && frames(f) && frames(g) && KeyCrop(f) == r.crop && KeyCrop(g) == r.crop && Addressed(world)
    ensures var empty := Records(map[], map[]);
            var h := [empty, Next(empty, Store(r, g, true), bundles, world)];
            && IsRun(h, [Store(r, g, true)], bundles, world, frames)
            && forall luck :: Ensured(h[1], r, f, bundles, world, luck).answer == Some(Own(r, g, bundles, world))
    ensures AnswersAreOwn(bundles, world, frames) ==> Own(r, f, bundles, world) == Own(r, g, bundles, world)
  {
    var empty := Records(map[], map[]);
    var h := [empty, Next(empty, Store(r, g, true), bundles, world)];
    OneStore(r, g, bundles, world, frames);
    if AnswersAreOwn(bundles, world, frames) {
      assert RunAnswersOwn(h, bundles, world, frames);
      OwnAtOne(h, r, f, bundles, world, frames);
    }
  }

  lemma OwnAtOne(h: seq<Records>, r: Request, f: Option<Frame>, bundles: Bundles, world: World, frames: Frames)
    requires |h| > 1 && RunAnswersOwn(h, bundles, world, frames) && Proper(r) && frames(f) && KeyCrop(f) == r.crop
    requires Recorded(h[1].entries, PreviewKey(r)) != ""
    ensures Recorded(h[1].entries, PreviewKey(r)) == Own(r, f, bundles, world)
  {
    assert OwnOrNone(Ensured(h[1], r, f, bundles, world, Luck(true, true, true, true)).answer,
                     Own(r, f, bundles, world));
  }

  lemma EqualDrawingIsOwn(h: seq<Records>, steps: seq<Step>, bundles: Bundles, world: World, frames: Frames)
    requires IsRun(h, steps, bundles, world, frames) && EqualKeysDrawEqually(bundles, world, frames)
    ensures RunAnswersOwn(h, bundles, world, frames)
  {
    forall k: nat, r: Request, frame, luck | k < |h| && Proper(r) && frames(frame) && KeyCrop(frame) == r.crop
      ensures OwnOrNone(Ensured(h[k], r, frame, bundles, world, luck).answer, Own(r, frame, bundles, world))
    {
      RunsStayTruthful(h, steps, bundles, world, frames, k);
      if Recorded(h[k].entries, PreviewKey(r)) != "" {
        var answer := Recorded(h[k].entries, PreviewKey(r));
        var g :| frames(g) && KeyCrop(g) == r.crop && answer == Own(r, g, bundles, world);
      }
    }
  }

  /** Two frames that print alike. */
  const FIRST := Frame(0.0, 0.0, 0.5, 0.5)
  const SECOND := Frame(0.00001, 0.0, 0.5, 0.5)

  lemma FramesPrintAlike()
    ensures FIRST != SECOND && KeyCrop(Some(FIRST)) == KeyCrop(Some(SECOND)) == Some(Crop(0, 0, 5000, 5000))
  {
    assert (0.00001 * 10000.0).Floor == 0 && (0.5 * 10000.0).Floor == 5000;
  }

  /** A world in which pictures in the two frames differ. */
  function Telling(): World {
    World((cid, path) => [],
          (source, size, frame) => if frame == Some(FIRST) then [0x01] else [0x02],
          b => if b == [0x01] then "one" else "two")
  }

  /** A request in the second frame, after one in the first, is sent the picture in the first. */
  lemma SecondFrameIsNotDrawn(luck: Luck)
    ensures var bundles: Bundles, frames: Frames := cid => Bundle(true, "original", map[]), frame => true;
            var r := Request("c", Size("v", 1, 1, "fit", "fit", 82), "", "", Some(Crop(0, 0, 5000, 5000)));
            var empty := Records(map[], map[]);
            var h := [empty, Next(empty, Store(r, Some(FIRST), true), bundles, Telling())];
            && IsRun(h, [Store(r, Some(FIRST), true)], bundles, Telling(), frames)
            && Ensured(h[1], r, Some(SECOND), bundles, Telling(), luck).answer == Some("one")
            && Own(r, Some(SECOND), bundles, Telling()) == "two"
  {
    var bundles: Bundles, frames: Frames := cid => Bundle(true, "original", map[]), frame => true;
    var r := Request("c", Size("v", 1, 1, "fit", "fit", 82), "", "", Some(Crop(0, 0, 5000, 5000)));
    FramesPrintAlike();
    SampleIsProper(r);
    SecondGetsFirst(r, Some(SECOND), Some(FIRST), bundles, Telling(), frames);
  }

  lemma SampleIsProper(r: Request)
    requires r.cid == "c" && r.size.variant == "v" && r.size.mode == "fit" && r.size.policy == "fit"
    requires r.mask == "" && r.maskCid == ""
    ensures Proper(r)
  {
  }
}

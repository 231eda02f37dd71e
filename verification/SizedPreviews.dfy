/** A sized picture from the policy's rows to the bytes that are sent. */
module SizedPreviews {
  import opened Bytes
  import Delivery
  import opened Modes
  import opened Options
  import opened PreviewKeys
  import opened Previews

  datatype Sent = Denied | NotSized(served: Delivery.Served) | Unavailable | Picture(file: string)

  function IsConfigured(settings: Settings): string -> bool {
    (variant: string) => settings.enabled && Configured(settings.variants, variant).Some?
  }

  function ChosenFor(mode: string, parts: seq<string>, frame: Option<Frame>, settings: Settings,
                     bundle: Bundle): Delivery.Served {
    Delivery.Chosen(parts, Decision(true, mode, "", false, frame.Some?), bundle.image, bundle.variants.Keys,
                    IsConfigured(settings))
  }

  /** The picture is in the frame that the decision names, if the choice was to cut one out. */
  function Shown(served: Delivery.Served, frame: Option<Frame>): Option<Frame> {
    if served.Preview? && served.crop then frame else None
  }

  /** What a preview of a size is drawn at. */
  function Sizing(v: Variant, settings: Settings): Size
    requires v.width > 0 && v.height > 0
  {
    Size(v.key, v.width, v.height, v.mode, settings.policy, settings.quality)
  }

  /** The mask is the stricter of row and request; only a denied file that is asked for with a full blur has that. */
  predicate IsMaskFor(mask: string, mode: string, requested: string) {
    && IsMode(mode) && Delivery.MaskLevel(mask).Some? && Delivery.MaskLevel(requested).Some?
    && (if mode == DENY && requested == BLUR then mask == BLUR else Delivery.IsStricter(mask, mode, requested))
  }

  /** The size asked for where it is configured, else the fallback. */
  predicate IsSizeFor(v: Variant, parts: seq<string>, settings: Settings) {
    && v in settings.variants && v.width > 0 && v.height > 0
    && v.key == if IsConfigured(settings)(Delivery.Asked(parts)) then Delivery.Asked(parts) else "fit_1024"
  }

  /**
   A picture that may be sent: drawn at a configured size, in the frame that the decision names, from what stands for
   the mask, which is the stricter of the strictest row and the requested one.
   */
  ghost predicate MaySend(file: string, rows: seq<Delivery.Row>, parts: seq<string>, frame: Option<Frame>,
                          settings: Settings, bundles: Bundles, cid: string, entries: map<string, string>,
                          world: World, frames: Frames)
  {
    exists mode, mask, v ::
      && Delivery.IsStrictest(mode, rows) && IsMaskFor(mask, mode, Delivery.Requested(parts))
      && IsSizeFor(v, parts, settings) && (mask == "" || mask in bundles(cid).variants)
      && (Proper(Previews.Asked(Sizing(v, settings), cid, mask, frame, entries)) ==>
            IsPictureOf(file, Drawable(cid, mask, entries, bundles, world), Sizing(v, settings), frame, world, frames))
  }

  /** The answer under a mode: the choice itself, or the preview where one can be had. */
  function Answer(before: Records, mode: string, parts: seq<string>, frame: Option<Frame>, settings: Settings,
                  bundles: Bundles, cid: string, world: World, luck: Luck): Sent {
    var served := ChosenFor(mode, parts, frame, settings, bundles(cid));
    if !served.Preview? then NotSized(served)
    else if !Answerable(settings, served.size, served.mask, bundles(cid)) then Unavailable
    else
      var o := EnsuredNow(before, settings, served.size, bundles, cid, served.mask, Shown(served, frame), world, luck);
      if o.answer.Some? then Picture(o.answer.value) else Unavailable
  }

  method ServeSized(rows: seq<Delivery.Row>, parts: seq<string>, frame: Option<Frame>, overrides: VariantOverrides,
                    settings: Settings, bundles: Bundles, cid: string, world: World, luck: Luck, ghost frames: Frames)
    returns (sent: Sent)
    requires Truthful(overrides.entries, bundles, world, frames) && frames(None) && frames(frame)
    modifies overrides
    ensures sent == Denied <==> rows == [] || exists row <- rows :: !Delivery.IsValid(row)
    ensures forall mode :: Delivery.IsStrictest(mode, rows) ==>
              sent == Answer(old(overrides.State()), mode, parts, frame, settings, bundles, cid, world, luck)
    ensures sent.Picture? ==>
              MaySend(sent.file, rows, parts, frame, settings, bundles, cid, old(overrides.entries), world, frames)
    ensures IsStepOrNothing(old(overrides.State()), overrides.State(), cid, bundles, world, frames)
  {
    ghost var before := overrides.State();
    var mode := Delivery.Resolve(rows);
    if mode.None? {
      return Denied;
    }
    forall other | Delivery.IsStrictest(other, rows) ensures other == mode.value {
      Delivery.OrderDoesNotMatter(rows, rows, other, mode.value);
    }
    var bundle := bundles(cid);
    var decision := Decision(true, mode.value, "", false, frame.Some?);
    var served := Delivery.Choose(parts, decision, bundle.image, bundle.variants.Keys, IsConfigured(settings));
    if !served.Preview? {
      return NotSized(served);
    }
    var shown := if served.crop then frame else None;
    var answer := EnsureConfiguredPreview(overrides, settings, bundles, cid, served.size, served.mask, shown, world,
                                          luck);
    if Answerable(settings, served.size, served.mask, bundle) {
      MayBeSent(before, rows, mode.value, parts, frame, settings, bundles, cid, world, frames, luck);
    }
    sent := if answer.None? then Unavailable else Picture(answer.value);
    assert sent == Answer(before, mode.value, parts, frame, settings, bundles, cid, world, luck);
  }

  /** The records are as they were, or a preview of this bundle was recorded as a run may. */
  ghost predicate IsStepOrNothing(before: Records, after: Records, cid: string, bundles: Bundles, world: World,
                                  frames: Frames) {
    after == before
    || exists q: Request, frame, writes ::
         && q.cid == cid && (Proper(q) ==> Allowed(Store(q, frame, writes), frames))
         && after == Next(before, Store(q, frame, writes), bundles, world)
  }

  lemma OneRequest(before: Records, q: Request, shown: Option<Frame>, bundles: Bundles, world: World, frames: Frames,
                   luck: Luck)
    requires Truthful(before.entries, bundles, world, frames) && frames(shown) && KeyCrop(shown) == q.crop
    ensures var o := Ensured(before, q, shown, bundles, world, luck);
            && IsStepOrNothing(before, o.records, q.cid, bundles, world, frames)
            && (Proper(q) && o.answer.Some? ==> IsPreview(o.answer.value, q, bundles, world, frames))
  {
    var o := Ensured(before, q, shown, bundles, world, luck);
    if o.records != before {
      assert o.records == Next(before, Store(q, shown, luck.saves), bundles, world);
    }
  }

  lemma MaskIsStricter(mode: string, parts: seq<string>, frame: Option<Frame>, settings: Settings, bundle: Bundle)
    requires IsMode(mode) && ChosenFor(mode, parts, frame, settings, bundle).Preview?
    ensures IsMaskFor(ChosenFor(mode, parts, frame, settings, bundle).mask, mode, Delivery.Requested(parts))
  {
    Delivery.PreviewTakesStricter(parts, Decision(true, mode, "", false, frame.Some?), bundle.image,
                                  bundle.variants.Keys, IsConfigured(settings));
  }

  /** A preview of an image is cut to the frame that the decision names, and only to that. */
  lemma ShownIsFrame(mode: string, parts: seq<string>, frame: Option<Frame>, settings: Settings, bundle: Bundle)
    requires IsMode(mode) && bundle.image && ChosenFor(mode, parts, frame, settings, bundle).Preview?
    ensures var served := ChosenFor(mode, parts, frame, settings, bundle);
            && Shown(served, frame) == frame && Configured(settings.variants, served.size).Some?
            && IsSizeFor(Configured(settings.variants, served.size).value, parts, settings)
  {
    var d := Decision(true, mode, "", false, frame.Some?);
    var served := ChosenFor(mode, parts, frame, settings, bundle);
    assert mode != "";
    Delivery.ChosenMeaning(parts, d, bundle.image, bundle.variants.Keys, IsConfigured(settings));
    assert IsConfigured(settings)(served.size);
    ConfiguredIsUsable(settings.variants, served.size);
  }

  /** What a request would be sent may be sent, and what it does to the records is nothing or a step of a run. */
  lemma MayBeSent(before: Records, rows: seq<Delivery.Row>, mode: string, parts: seq<string>, frame: Option<Frame>,
                  settings: Settings, bundles: Bundles, cid: string, world: World, frames: Frames, luck: Luck)
    requires Truthful(before.entries, bundles, world, frames) && frames(None) && frames(frame)
    requires Delivery.IsStrictest(mode, rows)
    requires var served := ChosenFor(mode, parts, frame, settings, bundles(cid));
             served.Preview? && Answerable(settings, served.size, served.mask, bundles(cid))
    ensures var served := ChosenFor(mode, parts, frame, settings, bundles(cid));
            var shown := Shown(served, frame);
            var o := EnsuredNow(before, settings, served.size, bundles, cid, served.mask, shown, world, luck);
            && (o.answer.Some? ==>
                  MaySend(o.answer.value, rows, parts, frame, settings, bundles, cid, before.entries, world, frames))
            && IsStepOrNothing(before, o.records, cid, bundles, world, frames)
  {
    var served := ChosenFor(mode, parts, frame, settings, bundles(cid));
    MaskIsStricter(mode, parts, frame, settings, bundles(cid));
    ShownIsFrame(mode, parts, frame, settings, bundles(cid));
    var v := Configured(settings.variants, served.size).value;
    var size := Sizing(v, settings);
    var q := Previews.Asked(size, cid, served.mask, frame, before.entries);
    OneRequest(before, q, frame, bundles, world, frames, luck);
    var o := Ensured(before, q, frame, bundles, world, luck);
    EnsuredIs(before, settings, v, served.size, bundles, cid, served.mask, frame, world, luck);
    if o.answer.Some? {
      PreviewMayBeSent(o.answer.value, rows, mode, served.mask, v, parts, frame, settings, bundles, cid, before.entries,
                       world, frames);
    }
  }

  lemma EnsuredIs(before: Records, settings: Settings, v: Variant, variant: string, bundles: Bundles, cid: string,
                  mask: string, frame: Option<Frame>, world: World, luck: Luck)
    requires Configured(settings.variants, variant) == Some(v) && v.width > 0 && v.height > 0
    ensures EnsuredNow(before, settings, variant, bundles, cid, mask, frame, world, luck)
         == Ensured(before, Previews.Asked(Sizing(v, settings), cid, mask, frame, before.entries), frame, bundles,
                    world, luck)
  {
  }

  lemma PreviewMayBeSent(file: string, rows: seq<Delivery.Row>, mode: string, mask: string, v: Variant,
                         parts: seq<string>, frame: Option<Frame>, settings: Settings, bundles: Bundles, cid: string,
                         entries: map<string, string>, world: World, frames: Frames)
    requires Delivery.IsStrictest(mode, rows) && IsMaskFor(mask, mode, Delivery.Requested(parts))
    requires IsSizeFor(v, parts, settings) && (mask == "" || mask in bundles(cid).variants)
    requires var q := Previews.Asked(Sizing(v, settings), cid, mask, frame, entries);
             Proper(q) ==> IsPreview(file, q, bundles, world, frames)
    ensures MaySend(file, rows, parts, frame, settings, bundles, cid, entries, world, frames)
  {
    if Proper(Previews.Asked(Sizing(v, settings), cid, mask, frame, entries)) {
      PreviewMeaning(file, Sizing(v, settings), cid, mask, frame, entries, bundles, world, frames);
    }
  }

  /** At every moment of every run, what a request would be sent then may be sent. */
  lemma RunsSendWhatTheyMay(h: seq<Records>, steps: seq<Step>, rows: seq<Delivery.Row>, mode: string,
                            parts: seq<string>, frame: Option<Frame>, settings: Settings, bundles: Bundles,
                            cid: string, world: World, frames: Frames, luck: Luck, k: nat)
    requires IsRun(h, steps, bundles, world, frames) && k < |h| && frames(None) && frames(frame)
    requires Delivery.IsStrictest(mode, rows)
    requires var served := ChosenFor(mode, parts, frame, settings, bundles(cid));
             served.Preview? && Answerable(settings, served.size, served.mask, bundles(cid))
    ensures var served := ChosenFor(mode, parts, frame, settings, bundles(cid));
            var shown := Shown(served, frame);
            var o := EnsuredNow(h[k], settings, served.size, bundles, cid, served.mask, shown, world, luck);
            && (o.answer.Some? ==>
                  MaySend(o.answer.value, rows, parts, frame, settings, bundles, cid, h[k].entries, world, frames))
            && IsStepOrNothing(h[k], o.records, cid, bundles, world, frames)
  {
    RunsStayTruthful(h, steps, bundles, world, frames, k);
    MayBeSent(h[k], rows, mode, parts, frame, settings, bundles, cid, world, frames, luck);
  }
}

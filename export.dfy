/**
 * `save_combined_images`: the guards, the composite layout with its burned-in
 * badges, and the destination path of the exported picture.
 */
module Export {
  import opened Wrappers
  import opened Paths
  import opened Geometry
  import opened Composite
  import opened Labels

  /** The composed canvas with the badges painted on it, in painting order. */
  datatype Picture = Picture(layout: Layout, badges: seq<Badge>)

  datatype ExportResult =
    | MissingSelection                            // a panel shows no image
    | DecodeFailure                               // an image could not be loaded
    | Cancelled(proposed: string, pic: Picture)                   // the save dialog was dismissed
    | EncodeFailure(proposed: string, path: string, pic: Picture) // writing the file failed
    | Saved(proposed: string, path: string, pic: Picture)

  /** A current path that Python treats as present: not `None` and not empty. */
  predicate Selected(p: Option<string>) {
    p.Some? && p.value != ""
  }

  /**
   * The export's badges on layout `l`: the two file names bottom-left when
   * embedding is on, then each image's label stack top-right on its own region.
   */
  function Burned(l: Layout, embed: bool, path1: string, path2: string,
                  texts1: seq<string>, texts2: seq<string>, m: Metrics): (r: seq<Badge>)
    ensures |r| == |NonEmpty(texts1)| + |NonEmpty(texts2)|
      + (if embed then (if Basename(path1) == "" then 0 else 1) + (if Basename(path2) == "" then 0 else 1) else 0)
  {
    (if embed then Drawn(BottomLeft(l.region1, Basename(path1), m)) + Drawn(BottomLeft(l.region2, Basename(path2), m)) else [])
    + Stack(l.region1, texts1, m) + Stack(l.region2, texts2, m)
  }

  /** An empty label list paints nothing, so `save_combined_images` may skip it. */
  lemma StackOfNothing(base: Rect, m: Metrics)
    ensures Stack(base, [], m) == []
  {
  }

  /** The painting half of `save_combined_images`: file names first, then the label stacks. */
  method PaintOverlays(l: Layout, embed: bool, path1: string, path2: string,
                       texts1: seq<string>, texts2: seq<string>, m: Metrics)
    returns (badges: seq<Badge>)
    ensures badges == Burned(l, embed, path1, path2, texts1, texts2, m)
  {
    var names: seq<Badge> := [];
    if embed {
      var first := Drawn(BottomLeft(l.region1, Basename(path1), m));
      var second := Drawn(BottomLeft(l.region2, Basename(path2), m));
      names := first + second;
    }
    var stack1: seq<Badge> := [];
    if texts1 != [] {
      stack1 := DrawTopRightStack(l.region1, texts1, m);
    } else {
      StackOfNothing(l.region1, m);
    }
    var stack2: seq<Badge> := [];
    if texts2 != [] {
      stack2 := DrawTopRightStack(l.region2, texts2, m);
    } else {
      StackOfNothing(l.region2, m);
    }
    badges := names + stack1 + stack2;
  }

  /**
   * `save_combined_images`. The current paths of both panels, the decoded image
   * sizes (`None` for an image that failed to load), the destination the save
   * dialog returned (empty when dismissed) and whether writing it succeeded are
   * inputs; the name the dialog is offered is part of the result.
   */
  method SaveCombined(path1: Option<string>, path2: Option<string>,
                      image1: Option<Size>, image2: Option<Size>,
                      o: Orientation, sc: Scaler, embed: bool,
                      slots1: seq<LabelSlot>, slots2: seq<LabelSlot>, m: Metrics,
                      chosen: string, written: bool)
    returns (r: ExportResult)
    ensures r == MissingSelection <==> !Selected(path1) || !Selected(path2)
    ensures r == DecodeFailure <==> Selected(path1) && Selected(path2) && (image1.None? || image2.None?)
    ensures r.Cancelled? <==> Selected(path1) && Selected(path2) && image1.Some? && image2.Some? && chosen == ""
    ensures r.Saved? <==> Selected(path1) && Selected(path2) && image1.Some? && image2.Some? && chosen != "" && written
    ensures r.EncodeFailure? || r.Saved? ==> r.path == WithJpegSuffix(chosen)
    ensures r.Cancelled? || r.EncodeFailure? || r.Saved? ==>
      r.proposed == DefaultSaveName(Some(Basename(path1.value)))
    ensures r.Cancelled? || r.EncodeFailure? || r.Saved? ==>
      && r.pic.layout == Compose(o, image1.value, image2.value, sc)
      && r.pic.badges == Burned(r.pic.layout, embed, path1.value, path2.value,
                                ActiveLabels(slots1), ActiveLabels(slots2), m)
  {
    if !Selected(path1) || !Selected(path2) {
      return MissingSelection;
    }
    if image1.None? || image2.None? {
      return DecodeFailure;
    }
    var layout := Compose(o, image1.value, image2.value, sc);
    var badges := PaintOverlays(layout, embed, path1.value, path2.value, ActiveLabels(slots1), ActiveLabels(slots2), m);
    var pic := Picture(layout, badges);
    var proposed := DefaultSaveName(Some(Basename(path1.value)));
    var savePath := chosen;
    if savePath == "" {
      return Cancelled(proposed, pic);
    }
    savePath := WithJpegSuffix(savePath);
    if !written {
      return EncodeFailure(proposed, savePath, pic);
    }
    return Saved(proposed, savePath, pic);
  }
}

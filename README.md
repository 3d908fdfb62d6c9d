# Dual-Image Viewer: a verified model of its layout and selection core

The Dual-Image Viewer shows two folders of images side by side. Each side has
its own image list, a cursor on the shown image and a sort mode. The viewer
can export the two current images as one JPEG. The images are joined side by
side or one above the other, and the viewer can burn into them the file names
(bottom-left) and up to three user labels per side (top-right).

This project models the integer and sequence core of `dualImgView.py` in
Dafny and proves what that code promises. The Qt toolkit, the file system and
the codecs become parameters. The modules are:

- `Wrappers`: `Option`, and `Drawn`, which turns an optional badge into zero
  or one painted badges.
- `Text`: Python's `str.strip`, `startswith`, `endswith` and `in` on strings,
  the code-point order of `str` comparison, and `str.lower` restricted to the
  capitals of ASCII and Latin-1 (see "Left out").
- `Paths`: POSIX `os.path.basename`, `join` and `splitext`, the image filter
  over `IMAGE_EXTENSIONS`, the save-path `.jpg` rule, and the default save name.
- `Geometry`: the badge boxes and text origins of `draw_bottom_left` and
  `draw_top_right_stack`, and of the preview overlay in `display_image`.
  Rectangles are painted in order, so a painting is a sequence of `Badge`s.
- `Labels`: the label slots and the active-label selection of
  `get_overlay_for_preview` and `save_combined_images`.
- `Composite`: the canvas size and the two sub-image regions of the export.
- `Sorting`: the stable `list.sort(key=..., reverse=...)`, the six sort modes
  and their keys, with timestamps that fall back to 0.0.
- `Panel`: the class `ImagePanel` with the fields `images`, `currentIndex` and
  `sortMode`, and its loading, sorting, navigation and preview operations.
- `Export`: `save_combined_images` from the guards to the save result.

The font metrics are a `Metrics` value. It holds the advance of a text, the
line height and the ascent, as the toolkit would report them. The
aspect-preserving scaling of Qt is a `Scaler` value. It gives the width an
image gets at a given height, and the height it gets at a given width. The
timestamps of the files are maps from path to `real`. A path that is missing
from the map is a file whose timestamp cannot be read.

Two behaviours of the code are worth stating plainly.

- A folder load that finds no image shows a message and leaves `images` and
  `current_index` unchanged (`dualImgView.py:289-291`).
  `Panel.ImagePanel.LoadImages` states this.
- Sorting ascending and then descending reverses the order only when no two
  paths share a key, because the sort is stable. `A.png` and `a.png` in the
  same folder have the same name key `a.png`, so they keep their relative
  order in both directions. `Sorting.ReverseSortReverses` proves the reversal
  under that condition, and `Sorting.SortByStable` proves that ties keep their
  order.

## Model

| member | source | states |
|---|---|---|
| Text.TrimStartSpec | dualImgView.py:123 | leading-whitespace removal leaves a suffix; the removed prefix is all whitespace; the result is empty or does not start with whitespace |
| Text.TrimEndSpec | dualImgView.py:123 | trailing-whitespace removal leaves a prefix; the removed part is all whitespace; the result is empty or does not end with whitespace |
| Text.Strip | dualImgView.py:123 | `str.strip`: the result is a slice `s[a..b]` of the input with only whitespace before `a` and after `b`; it neither starts nor ends with whitespace, and it is empty exactly when the input is all whitespace |
| Text.StripIdempotent | dualImgView.py:211-212 | stripping a stripped text changes nothing |
| Text.LowerChar | dualImgView.py:288 | `c.lower()`: never an ASCII capital; an ASCII capital becomes its small letter (code point plus 32); small letters, digits and `.` are kept |
| Text.Lower | dualImgView.py:288 | `s.lower()`: same length, and each character is lower-cased on its own |
| Text.LowerIdempotent | dualImgView.py:288 | lower-casing a lower-cased text changes nothing |
| Text.NotContained | dualImgView.py:418-424 | a text holding a character that occurs once in `s` occurs in `s` only aligned on that character, so if not there, `t in s` is false |
| Text.LexLtIrreflexive | dualImgView.py:287 | no string sorts before itself under Python's string order |
| Text.LexLtTransitive | dualImgView.py:287 | Python's string order is transitive |
| Text.LexLtTotal | dualImgView.py:287 | any two different strings are ordered one way or the other |
| Paths.Basename | dualImgView.py:322 | `os.path.basename`: a suffix of the path that holds no `/` and starts right after the last `/` |
| Paths.Join | dualImgView.py:286 | `os.path.join(folder, f)` ends with `f`; an absolute `f` is returned as is; otherwise the result starts with the folder and is `folder + f` or, when the folder does not end with `/`, `folder + "/" + f` |
| Paths.BasenameOfJoin | dualImgView.py:286-287 | the base name of a directory entry joined to its folder is the entry's name |
| Paths.Extension | dualImgView.py:288 | `os.path.splitext(f)[1]`: empty, or a suffix that starts with its only dot and holds no `/`; leading dots belong to the root (see `ExtensionOfDotfile`) |
| Paths.ExtensionOfName | dualImgView.py:288 | `splitext` of `stem.ext`, for a stem that is not all dots and an extension without a dot, gives the extension `.ext` |
| Paths.ExtensionOfDotfile | dualImgView.py:288 | `stem.ext` whose stem is all dots (such as `.png`) has no extension |
| Paths.HiddenPngIsNoImage | dualImgView.py:288 | a hidden file named `.png` does not pass the image filter |
| Paths.ImageNameOf | dualImgView.py:288 | `stem.ext` passes the image filter exactly when `.ext`, lower-cased, is in `IMAGE_EXTENSIONS` |
| Paths.UpperCaseExtensionIsImage | dualImgView.py:288 | the filter ignores case: `cat.PNG` is kept |
| Paths.ExtensionWithoutDot | dualImgView.py:221 | a name without a dot, such as `combined`, has no extension |
| Paths.Root | dualImgView.py:221 | `os.path.splitext(f)[0]`: the root followed by the extension gives back the path |
| Paths.IsImageName | dualImgView.py:288 | the filter test: the lower-cased `splitext` extension is in `IMAGE_EXTENSIONS`; its consequences are stated by `ImageNameOf`, `UpperCaseExtensionIsImage` and `HiddenPngIsNoImage` |
| Paths.ImagesAmong | dualImgView.py:286-288 | the kept entries are exactly those whose lowercased extension is in `IMAGE_EXTENSIONS`, each as often as it occurs |
| Paths.ImagesAmongAppend | dualImgView.py:286-288 | filtering a concatenation is concatenating the filtered parts, so the filter keeps the listing's order |
| Paths.HasJpegSuffix | dualImgView.py:225 | `save_path.lower().endswith((".jpg", ".jpeg"))`; `WithJpegSuffix` states what it decides |
| Paths.WithJpegSuffix | dualImgView.py:225-226 | the save path always ends with `.jpg` or `.jpeg` (in any case); it is returned unchanged if it did, and otherwise gets `.jpg` appended |
| Paths.WithJpegSuffixIdempotent | dualImgView.py:225-226 | applying the suffix rule twice gives the same path as applying it once |
| Paths.DefaultSaveName | dualImgView.py:221 | the default save name is the root of the first panel's file name, or `combined` when there is none |
| Geometry.BottomLeftAt | dualImgView.py:133-141 | the file-name box is at `(bx+6, by+bh-6-(th+12))` with size `(tw+12, th+12)`, and the text origin is `(bg_x+6, bg_y+6+ascent)` |
| Geometry.BottomLeft | dualImgView.py:130-132 | an empty text paints nothing; any other text paints exactly the bottom-left badge |
| Geometry.Column | dualImgView.py:150-157 | one badge per text, each placed below the previous one; `ColumnBadges` and `ColumnDescends` state where |
| Geometry.ColumnBadges | dualImgView.py:150-156 | each badge of a column is the badge of its own text, right-aligned `6` left of the right edge, and none starts above the first |
| Geometry.ColumnDescends | dualImgView.py:157 | each next badge starts at the previous top plus its height plus 2, so every badge lies strictly below all earlier ones |
| Geometry.NonEmpty | dualImgView.py:148-149 | the texts kept by the loop are non-empty and no more than the texts given |
| Geometry.NonEmptyAppend | dualImgView.py:147-149 | skipping empty texts distributes over concatenation |
| Geometry.Stack | dualImgView.py:143-157 | the label stack has one badge per non-empty text, so no more badges than texts |
| Geometry.StackBadges | dualImgView.py:143-157 | one badge per non-empty text, in order; the first top is `by+6`; every box is `tw+12` by `th+12` with its right edge at `bx+bw-6` and its text at `(bg_x+6, bg_y+6+ascent)` |
| Geometry.StackDescends | dualImgView.py:153-157 | each next box's top is the previous top plus the previous height plus 2; the boxes strictly descend and never overlap |
| Geometry.StackSkipsEmpty | dualImgView.py:148-149 | an empty text is skipped without moving the later badges down |
| Geometry.DrawTopRightStack | dualImgView.py:143-157 | the loop that advances `y` paints exactly the label stack |
| Geometry.PreviewLayout | dualImgView.py:317-341 | the preview paints one badge per label, plus one for the file name when it is shown |
| Geometry.PreviewOverlay | dualImgView.py:317-341 | the preview loop paints the file-name badge (when shown) at the bottom-left of `(0,0,w,h)`, then one badge per label stacked top-right |
| Geometry.PreviewAgreesWithExport | dualImgView.py:320-341 | for a non-empty file name and non-empty labels, the preview paints exactly what the export paints on a region `(0,0,w,h)` |
| Labels.ActiveLabels | dualImgView.py:123 | every active label is non-empty and already stripped; there are at most as many as slots, so at most 3 for one side |
| Labels.ActivePositionsIncrease | dualImgView.py:123 | the positions of the active slots increase, so labels keep slot order |
| Labels.ActivePositionsMembers | dualImgView.py:123 | a slot is among the active positions if and only if it is checked and its stripped text is not empty |
| Labels.ActiveLabelsFrom | dualImgView.py:211-212 | the k-th label is the stripped text of the k-th active slot |
| Labels.ActiveLabelsExactly | dualImgView.py:123 | the labels are, in slot order, the stripped texts of exactly the checked slots whose stripped text is not empty |
| Labels.OverlayForPreview | dualImgView.py:118-124 | the preview shows the file name exactly when embedding is on, and the active labels of the panel's own side |
| Composite.Compose | dualImgView.py:173-196 | horizontal: canvas height `min(h1,h2)`, width `s1.w+s2.w`, regions `(0,0,s1.w,s1.h)` and `(s1.w,0,s2.w,s2.h)`; vertical: width `min(w1,w2)`, height `s1.h+s2.h`, region 2 at `y=s1.h`; in both, the regions are disjoint and together cover the canvas |
| Sorting.KeyLtTransitive | dualImgView.py:428 | the key order (names by string order, times by number) is transitive |
| Sorting.KeyLtTotal | dualImgView.py:428 | any two different keys are ordered one way or the other |
| Sorting.InOrderTransitive | dualImgView.py:428 | "may stand before", ascending or descending, is transitive |
| Sorting.Insert | dualImgView.py:428 | inserting one path adds exactly that path |
| Sorting.SortBy | dualImgView.py:428 | `list.sort` returns a permutation of the paths |
| Sorting.InsertSorted | dualImgView.py:428 | inserting into a sorted sequence keeps it sorted |
| Sorting.SortBySorted | dualImgView.py:428 | the result is non-decreasing by key, or non-increasing with `reverse` |
| Sorting.InsertWithKey | dualImgView.py:428 | an inserted path goes ahead of the paths with its own key and leaves the order of every key's paths otherwise unchanged |
| Sorting.SortByStable | dualImgView.py:428 | stability: the paths with any one key keep their relative order, also with `reverse` |
| Sorting.SortedUnique | dualImgView.py:428 | with distinct keys, there is only one sorted arrangement of a set of paths |
| Sorting.ReversedAt | dualImgView.py:428 | reading back to front puts position `i` at `n-1-i` |
| Sorting.ReverseSortReverses | dualImgView.py:416-428 | with distinct keys, sorting the ascending order again in reverse gives exactly the ascending order reversed |
| Sorting.TimeOf | dualImgView.py:404-414 | `safe_mtime` / `safe_ctime`: the timestamp read for the path, or 0.0 when it cannot be read |
| Sorting.KeyOf | dualImgView.py:416-424 | the key function of a mode; `KeyOrder` and `ComboTextRule` state the order it induces and that it is the key the combo text selects |
| Sorting.KeyOrder | dualImgView.py:416-424 | the key of a mode orders name modes by the lower-cased base name in string order, modification modes by `getmtime` and creation modes by `getctime`, with 0.0 for a failed read |
| Sorting.RuleOf | dualImgView.py:416-426 | the combo text decides the key and `reverse`: a `Name` text sorts by base name, reversed when it holds `Z–A`; a `Geändert` or `Erstellt` text sorts by time, reversed when it holds `neu→alt`; any other text sorts by name, ascending |
| Sorting.NameAscendingRule | dualImgView.py:416-418 | `Name (A–Z)` sorts by name, not reversed |
| Sorting.NameDescendingRule | dualImgView.py:416-418 | `Name (Z–A)` sorts by name, reversed |
| Sorting.ModifiedNewestRule | dualImgView.py:419-421 | `Geändert (neu→alt)` sorts by modification time, reversed |
| Sorting.ModifiedOldestRule | dualImgView.py:419-421 | `Geändert (alt→neu)` sorts by modification time, not reversed |
| Sorting.CreatedNewestRule | dualImgView.py:422-424 | `Erstellt (neu→alt)` sorts by creation time, reversed |
| Sorting.CreatedOldestRule | dualImgView.py:422-424 | `Erstellt (alt→neu)` sorts by creation time, not reversed |
| Sorting.ComboTextRule | dualImgView.py:259-266 | for each of the six combo entries, the key and `reverse` the code derives from its text are the key `KeyOf` and the direction `Descending` of its mode |
| Sorting.UnreadableSortsAsOldest | dualImgView.py:404-428 | with timestamps that are never negative, a file whose timestamp cannot be read sorts as the oldest: oldest first, only files with time 0 stand before it; newest first, only files with time 0 stand after it |
| Panel.ImageNames | dualImgView.py:286-288 | the kept entries are exactly the image names, each as often as listed, and there are none exactly when no entry is an image |
| Panel.ImageNamesSorted | dualImgView.py:286-288 | the kept entries are in ascending string order, as `sorted` left them |
| Panel.ImagesAmongSorted | dualImgView.py:286-288 | filtering a sorted listing leaves it sorted |
| Panel.ImageFiles | dualImgView.py:286-288 | one path per kept entry, in the entries' order: the k-th path is the folder joined to the k-th kept entry |
| Panel.ImageFilesInFolder | dualImgView.py:286-288 | for plain entry names, every path starts with the folder, and its base name is its entry, an image name |
| Panel.IndexOf | dualImgView.py:431 | `list.index`: the first position holding the path |
| Panel.ImagePanel.constructor | dualImgView.py:279-280 | a new panel has no images and cursor -1 |
| Panel.ImagePanel.CurrentImagePath | dualImgView.py:369-372 | a path is returned if and only if the cursor is in range, and it is the path under the cursor |
| Panel.ImagePanel.CurrentFilename | dualImgView.py:374-376 | the base name of the current path when there is a non-empty one, otherwise nothing |
| Panel.ImagePanel.ShowPrevious | dualImgView.py:359-362 | the cursor moves back by exactly 1 when that keeps it in range; otherwise nothing changes; the cursor invariant is kept |
| Panel.ImagePanel.ShowNext | dualImgView.py:364-367 | the cursor moves on by exactly 1 when that keeps it in range; otherwise nothing changes; the cursor invariant is kept |
| Panel.ImagePanel.OnListRowChanged | dualImgView.py:388-391 | a row is taken only when it is in range and differs from the cursor; the cursor invariant is kept |
| Panel.ImagePanel.SortImages | dualImgView.py:393-433 | an empty list stays as it is; otherwise the images become the stable sort by the mode's key, the same path stays current when the selection is kept, and the cursor is 0 otherwise |
| Panel.ImagePanel.ChangeSortMode | dualImgView.py:295-297 | a new mode re-sorts the images by that mode and keeps the current path |
| Panel.ImagePanel.LoadImages | dualImgView.py:282-293 | a cancelled dialog or a folder without images changes nothing; otherwise the images are the folder's image paths sorted by the mode, with the cursor on the first |
| Panel.ImagePanel.PreviewBadges | dualImgView.py:299-341 | nothing is painted without images; otherwise the preview overlay of the current image is painted |
| Export.StackOfNothing | dualImgView.py:213-216 | an empty label list paints nothing, so skipping it changes nothing |
| Export.Burned | dualImgView.py:205-216 | the export paints one badge per non-empty label of each side and, when embedding is on, one per non-empty file name |
| Export.PaintOverlays | dualImgView.py:205-216 | the export paints the file-name badges (when embedding is on), then the label stack of each region |
| Export.Selected | dualImgView.py:163 | the guard `not p1 or not p2` negated: a current path counts only when there is one and it is non-empty; `SaveCombined` states the guard |
| Export.SaveCombined | dualImgView.py:159-228 | stops when a current path is missing, then when an image fails to decode, then when the dialog is dismissed; the dialog is offered the root of the first panel's file name; otherwise saves to the suffixed path, composed and painted as above, and reports a failed write |

## Left out

- The Qt widgets, layouts, the splitter and the signal wiring are UI plumbing.
  `update_previews` and the calls to `display_image` after each change only
  repaint.
- `refresh_list`, and the list-widget updates and `blockSignals` in
  `display_image`, only mirror the panel state in the list widget.
- The folder dialog, the save dialog and the message boxes are left out.
  `LoadImages` takes the chosen folder (empty when cancelled).
  `SaveCombined` takes the chosen destination (empty when dismissed).
  The message shown is not modelled; the outcome value names the case.
- `os.listdir` is replaced by a sequence of entry names given to `LoadImages`.
- Image decoding (`QImage(p)`, `isNull`) is replaced by an optional size per
  image, and `out_img.save` by a boolean input.
- Pixel painting is left out: `fillRect` colours and alpha, anti-aliasing, the
  white canvas fill, the image pixels and the glyphs. A painting is the
  sequence of badges, in the order they are painted.
- Smooth scaling (`scaledToHeight`, `scaledToWidth`, the preview's
  `scaled(700, 450, KeepAspectRatio)`) rounds inside Qt. The `Scaler` gives
  the other dimension, and the shared dimension is taken as the one asked for.
  The preview size is an input of `PreviewBadges`.
- Composite.Compose: says nothing about the aspect ratio of the scaled images,
  because that rounding happens inside Qt.
- Font metrics (`horizontalAdvance`, `height`, `ascent`) and the font size
  spin box are the `Metrics` input.
- `os.path.getmtime` and `getctime` are the two timestamp maps of `FileTimes`.
  A float timestamp is a `real`, and a failed read is a missing entry, which
  counts as 0.0.
- Text.LowerChar: maps only ASCII and Latin-1 capitals to lower case. This is
  exact for the extension and `.jpg` checks. For base names with other
  letters, the name sort key differs from Python's full Unicode `str.lower`.
- Paths are POSIX paths (`posixpath`). Windows drive letters and `\`
  separators are not modelled.
- The combo box holds exactly six entries, so `SortMode` has six values.
  `Sorting.RuleOf` reads any text, including the final `else`
  (`dualImgView.py:425-426`), which none of the six entries reaches.
- The `hasattr(owner, "get_overlay_for_preview")` test in `display_image` is
  left out. The main window always has that method, so `PreviewBadges` always
  takes the overlay.
- Panel.ImagePanel.PreviewBadges: requires the cursor invariant `Valid()`,
  which every operation of the panel keeps. Python's negative index for a
  cursor of -1 on a non-empty list does not arise.
- The preview loop in `display_image` does not skip empty texts or an empty
  file name, unlike the two export helpers. The labels it gets are never
  empty, and `PreviewOverlay` paints exactly what the loop paints.
  `PreviewAgreesWithExport` relates the two.

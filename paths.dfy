/**
 * The file-name rules of the viewer on POSIX paths: `os.path.basename`,
 * `os.path.join`, `os.path.splitext`, the image-extension filter and the
 * `.jpg` default for the export destination.
 */
module Paths {
  import opened Wrappers
  import opened Text

  /** The index of the last `c` in `s`, or -1 when there is none. */
  function LastIndexOf(s: string, c: char): (r: int)
    ensures -1 <= r < |s|
    ensures r >= 0 ==> s[r] == c
    ensures forall k :: r < k < |s| ==> s[k] != c
  {
    if s == [] then -1
    else if s[|s| - 1] == c then |s| - 1
    else LastIndexOf(s[..|s| - 1], c)
  }

  /** `os.path.basename(p)`: what follows the last separator. */
  function Basename(p: string): (r: string)
    ensures '/' !in r
    ensures EndsWith(p, r)
    ensures |r| < |p| ==> p[|p| - |r| - 1] == '/'
  {
    if p == [] || p[|p| - 1] == '/' then []
    else Basename(p[..|p| - 1]) + [p[|p| - 1]]
  }

  /**
   * `os.path.join(dir, name)`: an absolute `name` replaces `dir`; otherwise
   * `name` follows `dir`, with a separator in between unless `dir` is empty or
   * already ends with one.
   */
  function Join(dir: string, name: string): (r: string)
    ensures EndsWith(r, name)
    ensures name != [] && name[0] == '/' ==> r == name
    ensures !(name != [] && name[0] == '/') ==>
      && |dir| <= |r| && r[..|dir|] == dir
      && (r == dir + name || r == dir + "/" + name)
      && (r == dir + "/" + name <==> dir != [] && dir[|dir| - 1] != '/')
  {
    if name != [] && name[0] == '/' then name
    else if dir == [] || dir[|dir| - 1] == '/' then dir + name
    else dir + "/" + name
  }

  lemma {:induction false} BasenameAfterSeparator(x: string, name: string)
    requires '/' !in name
    requires x == [] || x[|x| - 1] == '/'
    ensures Basename(x + name) == name
    decreases |name|
  {
    if name != [] {
      var n := |name| - 1;
      assert name[n] in name;
      assert (x + name)[..|x + name| - 1] == x + name[..n];
      assert '/' !in name[..n] by {
        assert forall c :: c in name[..n] ==> c in name;
      }
      BasenameAfterSeparator(x, name[..n]);
      assert name[..n] + [name[n]] == name;
    }
  }

  /** A directory entry joined to its folder keeps the entry as its base name. */
  lemma BasenameOfJoin(dir: string, name: string)
    requires '/' !in name
    ensures Basename(Join(dir, name)) == name
  {
    if dir == [] || dir[|dir| - 1] == '/' {
      BasenameAfterSeparator(dir, name);
    } else {
      BasenameAfterSeparator(dir + "/", name);
      assert dir + "/" + name == (dir + "/") + name;
    }
  }

  /**
   * `os.path.splitext(p)[1]`: from the last dot of the last path component to
   * the end, unless every character before that dot in the component is a dot.
   */
  function Extension(p: string): (r: string)
    ensures r == [] || (r[0] == '.' && EndsWith(p, r) && '/' !in r && '.' !in r[1..])
  {
    var sep := LastIndexOf(p, '/');
    var dot := LastIndexOf(p, '.');
    if dot > sep && exists k | sep < k < dot :: p[k] != '.' then
      var r := p[dot..];
      assert forall k :: 0 <= k < |r| ==> r[k] == p[dot + k];
      r
    else []
  }

  /** A name without a dot has no extension. */
  lemma ExtensionWithoutDot(p: string)
    requires '.' !in p
    ensures Extension(p) == []
  {
    assert LastIndexOf(p, '.') == -1;
  }

  /**
   * A file name `stem.ext` whose stem is not all dots has the extension
   * `.ext`, whatever the stem's own dots.
   */
  lemma ExtensionOfName(stem: string, ext: string)
    requires '/' !in stem && '/' !in ext && '.' !in ext
    requires exists k :: 0 <= k < |stem| && stem[k] != '.'
    ensures Extension(stem + "." + ext) == "." + ext
  {
    var p := stem + "." + ext;
    assert '/' !in p by {
      forall k | 0 <= k < |p| ensures p[k] != '/' {
        if k < |stem| {
          assert p[k] == stem[k];
        } else if k > |stem| {
          assert p[k] == ext[k - |stem| - 1];
        }
      }
    }
    assert LastIndexOf(p, '/') == -1;
    assert p[|stem|] == '.';
    forall k | |stem| < k < |p|
      ensures p[k] != '.'
    {
      assert p[k] == ext[k - |stem| - 1];
    }
    assert LastIndexOf(p, '.') == |stem|;
    var k :| 0 <= k < |stem| && stem[k] != '.';
    assert p[k] == stem[k];
    assert p[|stem|..] == "." + ext;
  }

  /**
   * Leading dots belong to the root: a file name `stem.ext` whose stem is all
   * dots, such as `.png`, has no extension.
   */
  lemma ExtensionOfDotfile(stem: string, ext: string)
    requires '/' !in ext && '.' !in ext
    requires forall k :: 0 <= k < |stem| ==> stem[k] == '.'
    ensures Extension(stem + "." + ext) == []
  {
    var p := stem + "." + ext;
    forall k | |stem| < k < |p|
      ensures p[k] != '.' && p[k] != '/'
    {
      assert p[k] == ext[k - |stem| - 1];
    }
    assert p[|stem|] == '.';
    assert LastIndexOf(p, '.') == |stem|;
    var sep := LastIndexOf(p, '/');
    assert sep < |stem|;
    forall k | sep < k < |stem| ensures p[k] == '.' {
      assert p[k] == stem[k];
    }
  }

  /** A hidden file named `.png` is not an image name. */
  lemma HiddenPngIsNoImage()
    ensures !IsImageName(".png")
  {
    assert "" + "." + "png" == ".png";
    ExtensionOfDotfile("", "png");
    assert Lower([]) == [];
  }

  /** `os.path.splitext(p)[0]`. */
  function Root(p: string): (r: string)
    ensures r + Extension(p) == p
  {
    p[..|p| - |Extension(p)|]
  }

  const ImageExtensions: set<string> := {".png", ".jpg", ".jpeg", ".bmp", ".gif"}

  /** The folder filter: the lower-cased extension is a known image extension. */
  predicate IsImageName(f: string) {
    Lower(Extension(f)) in ImageExtensions
  }

  /** The names in `names` that pass the image filter, in their order. */
  function ImagesAmong(names: seq<string>): (r: seq<string>)
    ensures forall f :: multiset(r)[f] == if IsImageName(f) then multiset(names)[f] else 0
    ensures forall k :: 0 <= k < |r| ==> IsImageName(r[k])
  {
    if names == [] then []
    else
      assert names == [names[0]] + names[1..];
      (if IsImageName(names[0]) then [names[0]] else []) + ImagesAmong(names[1..])
  }

  /**
   * A name `stem.ext` passes the filter exactly when `.ext`, lower-cased, is an
   * image extension; so `cat.PNG` passes as `cat.png` does.
   */
  lemma ImageNameOf(stem: string, ext: string)
    requires '/' !in stem && '/' !in ext && '.' !in ext
    requires exists k :: 0 <= k < |stem| && stem[k] != '.'
    ensures IsImageName(stem + "." + ext) <==> Lower("." + ext) in ImageExtensions
  {
    ExtensionOfName(stem, ext);
  }

  /** The filter ignores case: `cat.PNG` is an image name. */
  lemma UpperCaseExtensionIsImage()
    ensures IsImageName("cat.PNG")
  {
    UpperPngLowers();
    CatPngParts();
    ImageNameOf("cat", "PNG");
  }

  /** `cat.PNG` splits into the stem `cat` and the extension `PNG`. */
  lemma CatPngParts()
    ensures '/' !in "cat" && '/' !in "PNG" && '.' !in "PNG"
    ensures 0 < |"cat"| && "cat"[0] != '.'
    ensures "cat" + "." + "PNG" == "cat.PNG"
  {
  }

  /** `.PNG` lower-cases to `.png`, an image extension. */
  lemma UpperPngLowers()
    ensures Lower("." + "PNG") in ImageExtensions
  {
    var l := Lower("." + "PNG");
    assert l[0] == '.' && l[1] == 'p' && l[2] == 'n' && l[3] == 'g';
    assert l == ".png";
  }

  /** Filtering a listing is filtering its parts one after the other: the order is kept. */
  lemma {:induction false} ImagesAmongAppend(a: seq<string>, b: seq<string>)
    ensures ImagesAmong(a + b) == ImagesAmong(a) + ImagesAmong(b)
    decreases |a|
  {
    if a == [] {
      assert a + b == b;
      assert ImagesAmong(a) == [];
      assert [] + ImagesAmong(b) == ImagesAmong(b);
    } else {
      var c := a + b;
      assert c[0] == a[0] && c[1..] == a[1..] + b;
      ImagesAmongAppend(a[1..], b);
      var h := if IsImageName(a[0]) then [a[0]] else [];
      assert ImagesAmong(c) == h + ImagesAmong(a[1..] + b);
      assert ImagesAmong(a) == h + ImagesAmong(a[1..]);
      ConcatAssociative(h, ImagesAmong(a[1..]), ImagesAmong(b));
    }
  }

  /** Concatenation is associative. */
  lemma ConcatAssociative(h: seq<string>, x: seq<string>, y: seq<string>)
    ensures h + (x + y) == (h + x) + y
  {
  }

  /** The destination already names a JPEG file (case-insensitively). */
  predicate HasJpegSuffix(p: string) {
    EndsWith(Lower(p), ".jpg") || EndsWith(Lower(p), ".jpeg")
  }

  /** The export destination: `.jpg` is appended unless the name is a JPEG one. */
  function WithJpegSuffix(p: string): (r: string)
    ensures HasJpegSuffix(r)
    ensures HasJpegSuffix(p) ==> r == p
    ensures !HasJpegSuffix(p) ==> r == p + ".jpg"
  {
    if HasJpegSuffix(p) then p
    else
      var r := p + ".jpg";
      assert Lower(r)[|r| - 4..] == ".jpg";
      r
  }

  /** Applying the default twice is applying it once. */
  lemma WithJpegSuffixIdempotent(p: string)
    ensures WithJpegSuffix(WithJpegSuffix(p)) == WithJpegSuffix(p)
  {
  }

  /**
   * The name the save dialog proposes: the first panel's file name, or
   * "combined" when it has none, without its extension.
   */
  function DefaultSaveName(filename: Option<string>): (r: string)
    ensures filename.Some? && filename.value != "" ==> r + Extension(filename.value) == filename.value
    ensures !(filename.Some? && filename.value != "") ==> r == "combined"
  {
    if filename.Some? && filename.value != "" then Root(filename.value)
    else
      ExtensionWithoutDot("combined");
      Root("combined")
  }
}

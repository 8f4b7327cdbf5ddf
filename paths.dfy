/** Path handling of the captioning tool: the caption sidecar path (`os.path.splitext(p)[0] + ".txt"`,
    POSIX rules), `os.path.join` of a folder and a file name, and the image-extension filter that
    the folder scan applies to a directory listing. */
module Paths {
  import opened Text

  /** `str.rfind` for one character: the last index holding `c`, or -1. */
  function RFind(s: string, c: char): (r: int)
    ensures -1 <= r < |s|
    ensures r >= 0 ==> s[r] == c
    ensures forall k :: r < k < |s| ==> s[k] != c
  {
    if s == [] then -1
    else if s[|s| - 1] == c then |s| - 1
    else RFind(s[..|s| - 1], c)
  }

  /** `d` is where the final extension of `p` begins: the last dot, with no separator after it,
      and with some non-dot character between the last separator and it (so the leading dots
      of a name such as `.bashrc` do not start an extension). */
  predicate IsExtStart(p: string, d: int) {
    0 <= d < |p| && p[d] == '.'
    && (forall k :: d < k < |p| ==> p[k] != '.' && p[k] != '/')
    && (exists k :: 0 <= k < d && p[k] != '.' && forall m :: k <= m < d ==> p[m] != '/')
  }

  /** A path has at most one place where its final extension begins. */
  lemma ExtStartUnique(p: string, d: int, e: int)
    requires IsExtStart(p, d) && IsExtStart(p, e)
    ensures d == e
  {
  }

  /** The split point of `os.path.splitext` (POSIX): the index where the extension begins, or `|p|`
      when the path has none. */
  function ExtStart(p: string): (d: nat)
    ensures d <= |p|
    ensures d < |p| ==> IsExtStart(p, d)
    ensures d == |p| ==> forall e :: !IsExtStart(p, e)
  {
    var sep := RFind(p, '/');
    var dot := RFind(p, '.');
    if dot > sep && exists k :: sep < k < dot && p[k] != '.' then
      assert IsExtStart(p, dot) by {
        var k :| sep < k < dot && p[k] != '.';
        assert forall m :: k <= m < dot ==> p[m] != '/';
      }
      dot
    else
      assert forall e :: !IsExtStart(p, e) by {
        forall e | IsExtStart(p, e)
          ensures false
        {
          ExtStartFound(p, e);
        }
      }
      |p|
  }

  /** When `d` starts an extension, the scan for the last separator and the last dot finds it. */
  lemma ExtStartFound(p: string, d: int)
    requires IsExtStart(p, d)
    ensures RFind(p, '.') == d && RFind(p, '/') < d
    ensures exists k :: RFind(p, '/') < k < d && p[k] != '.'
  {
    var sep := RFind(p, '/');
    var k :| 0 <= k < d && p[k] != '.' && forall m :: k <= m < d ==> p[m] != '/';
    assert sep >= 0 ==> p[sep] == '/';
    assert sep < k;
  }

  /** The caption file of an image: the image path with its final extension replaced by `.txt`,
      or with `.txt` appended when it has no extension. */
  function SidecarPath(p: string): (r: string)
    ensures EndsWith(r, ".txt")
    ensures (forall e :: !IsExtStart(p, e)) ==> r == p + ".txt"
    ensures forall e :: IsExtStart(p, e) ==> r == p[..e] + ".txt"
  {
    var d := ExtStart(p);
    assert forall e :: IsExtStart(p, e) ==> e == d by {
      forall e | IsExtStart(p, e)
        ensures e == d
      {
        ExtStartUnique(p, d, e);
      }
    }
    assert d == |p| ==> p[..d] == p;
    p[..d] + ".txt"
  }

  /** The sidecar of `photo.jpg` is `photo.txt`. */
  lemma SidecarOfPhoto()
    ensures SidecarPath("photo.jpg") == "photo.txt"
  {
    var p := "photo.jpg";
    assert p[0] != '.' && forall m :: 0 <= m < 5 ==> p[m] != '/';
    assert IsExtStart(p, 5);
    assert p[..5] == "photo";
  }

  /** Two images that differ only in their extension share one caption file. */
  lemma SidecarShared()
    ensures SidecarPath("photo.png") == SidecarPath("photo.jpg")
  {
    var p := "photo.png";
    assert p[0] != '.' && forall m :: 0 <= m < 5 ==> p[m] != '/';
    assert IsExtStart(p, 5);
    assert p[..5] == "photo";
    SidecarOfPhoto();
  }

  /** Only the final extension is replaced. */
  lemma SidecarOfDoubleExtension()
    ensures SidecarPath("/pics/a.tar.gz") == "/pics/a.tar.txt"
  {
    var p := "/pics/a.tar.gz";
    assert p[6] != '.' && forall m :: 6 <= m < 11 ==> p[m] != '/';
    assert IsExtStart(p, 11);
    assert p[..11] == "/pics/a.tar";
  }

  /** A name whose only dot is leading has no extension. */
  lemma SidecarOfHiddenName()
    ensures SidecarPath("/pics/.hidden") == "/pics/.hidden.txt"
  {
    var p := "/pics/.hidden";
    assert p[5] == '/' && p[6] == '.';
    assert forall k :: 6 < k < |p| ==> p[k] != '.';
    assert forall e :: !IsExtStart(p, e);
  }

  /** A dot in a directory name is not an extension. */
  lemma SidecarOfDottedFolder()
    ensures SidecarPath("/a.b/c") == "/a.b/c.txt"
  {
    var p := "/a.b/c";
    assert p[4] == '/';
    assert forall e :: !IsExtStart(p, e);
  }

  /** `os.path.join(folder, name)` (POSIX): an absolute `name` replaces the folder; otherwise a
      separator is inserted unless the folder is empty or already ends with one. */
  function Join(folder: string, name: string): (r: string)
    ensures EndsWith(r, name)
    ensures name != [] && name[0] == '/' ==> r == name
    ensures (name == [] || name[0] != '/') && (folder == [] || folder[|folder| - 1] == '/') ==>
      r == folder + name
    ensures (name == [] || name[0] != '/') && folder != [] && folder[|folder| - 1] != '/' ==>
      r == folder + "/" + name
  {
    if name != [] && name[0] == '/' then name
    else if folder == [] || folder[|folder| - 1] == '/' then folder + name
    else folder + "/" + name
  }

  /** The extension test of the folder scan: the lower-cased name ends in one of the five
      recognised image extensions. */
  predicate IsImageName(name: string) {
    var l := Lower(name);
    EndsWith(l, ".png") || EndsWith(l, ".jpg") || EndsWith(l, ".jpeg") || EndsWith(l, ".gif") || EndsWith(l, ".bmp")
  }

  /** The folder scan's result: each image name of the listing joined to the folder, in listing order. */
  function ImageFiles(folder: string, listing: seq<string>): (r: seq<string>)
    ensures |r| <= |listing|
  {
    if listing == [] then []
    else
      var last := listing[|listing| - 1];
      ImageFiles(folder, listing[..|listing| - 1]) + (if IsImageName(last) then [Join(folder, last)] else [])
  }

  /** The positions of the image names in a listing, in increasing order, and all of them. */
  function ImageIndices(listing: seq<string>): (r: seq<nat>)
    ensures forall k :: 0 <= k < |r| ==> r[k] < |listing| && IsImageName(listing[r[k]])
    ensures forall j, k :: 0 <= j < k < |r| ==> r[j] < r[k]
    ensures forall i :: 0 <= i < |listing| && IsImageName(listing[i]) ==> i in r
  {
    if listing == [] then []
    else
      var n := |listing| - 1;
      var front := ImageIndices(listing[..n]);
      assert forall i :: 0 <= i < n ==> listing[..n][i] == listing[i];
      front + (if IsImageName(listing[n]) then [n] else [])
  }

  /** The scan keeps exactly the image names, in listing order: its `k`-th result is the `k`-th image
      position of the listing joined to the folder. */
  lemma {:induction false} ImageFilesSelects(folder: string, listing: seq<string>)
    ensures |ImageFiles(folder, listing)| == |ImageIndices(listing)|
    ensures forall k :: 0 <= k < |ImageIndices(listing)| ==>
      ImageFiles(folder, listing)[k] == Join(folder, listing[ImageIndices(listing)[k]])
  {
    if listing != [] {
      var n := |listing| - 1;
      ImageFilesSelects(folder, listing[..n]);
      assert forall i :: 0 <= i < n ==> listing[..n][i] == listing[i];
    }
  }

  /** The scanning loop of `on_directory_picked`: appends the join of every image name it meets. */
  method ListImages(folder: string, listing: seq<string>) returns (images: seq<string>)
    ensures images == ImageFiles(folder, listing)
  {
    images := [];
    var i := 0;
    while i < |listing|
      invariant 0 <= i <= |listing|
      invariant images == ImageFiles(folder, listing[..i])
    {
      var name := listing[i];
      assert listing[..i + 1][..i] == listing[..i];
      if IsImageName(name) {
        images := images + [Join(folder, name)];
      }
      i := i + 1;
    }
    assert listing[..i] == listing;
  }

  lemma UpperCaseJpgIsImage()
    ensures IsImageName("a.JPG")
  {
    var l := Lower("a.JPG");
    assert l[1] == '.' && l[2] == LowerChar('J') == 'j' && l[3] == LowerChar('P') == 'p' && l[4] == LowerChar('G') == 'g';
    assert l[|l| - 4..] == ['.', l[2], l[3], l[4]];
    assert l[|l| - 4..] == ".jpg";
  }

  lemma PngIsImage()
    ensures IsImageName("c.png")
  {
    var l := Lower("c.png");
    assert l == "c.png";
    assert l[|l| - 4..] == ".png";
  }

  lemma TxtIsNotImage()
    ensures !IsImageName("b.txt")
  {
    var l := Lower("b.txt");
    assert l == "b.txt";
    assert l[|l| - 4..] == ".txt";
    assert l[|l| - 5..] == "b.txt";
  }

  /** A three-entry listing whose middle entry is not an image shows the outer two, in order. */
  lemma ScanSkipsMiddle(folder: string, x: string, y: string, z: string)
    requires IsImageName(x) && !IsImageName(y) && IsImageName(z)
    ensures ImageFiles(folder, [x, y, z]) == [Join(folder, x), Join(folder, z)]
  {
    ImageFilesSnoc(folder, [], x);
    ImageFilesSnoc(folder, [x], y);
    ImageFilesSnoc(folder, [x, y], z);
    assert [] + [x] == [x];
    assert [x] + [y] == [x, y];
    assert [x, y] + [z] == [x, y, z];
  }

  /** A folder holding `a.JPG`, `b.txt` and `c.png` shows the two images, in listing order. */
  lemma ScanOfMixedListing(folder: string)
    ensures ImageFiles(folder, ["a.JPG", "b.txt", "c.png"]) == [Join(folder, "a.JPG"), Join(folder, "c.png")]
  {
    UpperCaseJpgIsImage();
    TxtIsNotImage();
    PngIsImage();
    ScanSkipsMiddle(folder, "a.JPG", "b.txt", "c.png");
  }

  /** The extension test ignores case: a name and its lower-cased form are judged alike. */
  lemma ImageNameIgnoresCase(name: string)
    ensures IsImageName(Lower(name)) == IsImageName(name)
  {
    LowerTwice(name);
  }

  /** Scanning one more listing entry appends its join when it names an image. */
  lemma ImageFilesSnoc(folder: string, listing: seq<string>, name: string)
    ensures ImageFiles(folder, listing + [name])
      == ImageFiles(folder, listing) + (if IsImageName(name) then [Join(folder, name)] else [])
  {
    assert (listing + [name])[..|listing|] == listing;
  }
}

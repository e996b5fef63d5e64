/** Normalisation of recipe image paths into absolute URLs on the recipe site. */
module ImageUrl {
  import opened Text

  /** The site root relative image paths are resolved against. */
  const SiteRoot: string := "https://www.semie.cooking/"

  /** The directory every site-relative image path is placed under. */
  const ImageDir: string := "image/"

  predicate IsSlash(c: char) { c == '/' }

  /** The relative path once leading slashes are gone, with `image/` put in front unless already there. */
  function UnderImageDir(path: string): (r: string)
    ensures StartsWith(r, ImageDir)
    ensures |path| <= |r| && r[|r| - |path|..] == path
    ensures StartsWith(path, ImageDir) ==> r == path
    ensures !StartsWith(path, ImageDir) ==> |r| == |ImageDir| + |path|
  {
    if StartsWith(path, ImageDir) then path else ImageDir + path
  }

  /** `fix_image_url(image_path)`. */
  function FixImageUrl(path: string): (r: string)
    ensures path == "" ==> r == ""
    ensures path != "" && StartsWith(Strip(path), "http") ==> r == Strip(path)
    ensures path != "" && !StartsWith(Strip(path), "http") ==>
      var rel := LStrip(Strip(path), IsSlash);
      && StartsWith(r, SiteRoot) && StartsWith(r[|SiteRoot|..], ImageDir)
      && |rel| <= |r| && r[|r| - |rel|..] == rel
      && (StartsWith(rel, ImageDir) ==> |r| == |SiteRoot| + |rel|)
      && (!StartsWith(rel, ImageDir) ==> |r| == |SiteRoot| + |ImageDir| + |rel|)
  {
    if path == "" then ""
    else
      var stripped := Strip(path);
      if StartsWith(stripped, "http") then stripped
      else
        var rel := LStrip(stripped, IsSlash);
        SiteUrlShape(rel);
        SiteRoot + UnderImageDir(rel)
  }

  /** The site URL of a relative path: root, then `image/` unless already there, then the path. */
  lemma SiteUrlShape(rel: string)
    ensures var r := SiteRoot + UnderImageDir(rel);
      && StartsWith(r, SiteRoot) && StartsWith(r[|SiteRoot|..], ImageDir)
      && |rel| <= |r| && r[|r| - |rel|..] == rel
      && (StartsWith(rel, ImageDir) ==> |r| == |SiteRoot| + |rel|)
      && (!StartsWith(rel, ImageDir) ==> |r| == |SiteRoot| + |ImageDir| + |rel|)
  {
    var u := UnderImageDir(rel);
    var r := SiteRoot + u;
    assert r[..|SiteRoot|] == SiteRoot;
    assert r[|SiteRoot|..] == u;
    assert r[|r| - |rel|..] == u[|u| - |rel|..];
  }

  /** Anything on the site root is an `http` URL. */
  lemma SiteRootIsHttp(r: string)
    requires StartsWith(r, SiteRoot)
    ensures StartsWith(r, "http")
  {
    assert r[..4] == SiteRoot[..4];
  }

  /** A URL on the site root starts with `http`, so not with whitespace. */
  lemma SiteUrlStart(r: string)
    requires StartsWith(r, SiteRoot)
    ensures StartsWith(r, "http") && !IsSpace(r[0])
  {
    SiteRootIsHttp(r);
    assert r[0] == r[..4][0] == 'h';
  }

  /** A site URL built by the fix starts with `http` and has no whitespace at either end. */
  lemma {:induction false} BuiltUrlShape(path: string)
    requires path != "" && !StartsWith(Strip(path), "http")
    ensures var r := FixImageUrl(path);
      && StartsWith(r, "http")
      && !IsSpace(r[0]) && !IsSpace(r[|r| - 1])
  {
    SiteUrlStart(FixImageUrl(path));
    LastCharNotSpace(path);
  }

  /** A site URL built by the fix does not end in whitespace. */
  lemma {:induction false} LastCharNotSpace(path: string)
    requires path != "" && !StartsWith(Strip(path), "http")
    ensures !IsSpace(FixImageUrl(path)[|FixImageUrl(path)| - 1])
  {
    var r := FixImageUrl(path);
    var stripped := Strip(path);
    var rel := LStrip(stripped, IsSlash);
    if rel == [] {
      var u := UnderImageDir(rel);
      assert u == ImageDir;
      assert r == SiteRoot + u;
      assert r[|r| - 1] == u[|u| - 1];
    } else {
      assert r[|r| - 1] == rel[|rel| - 1];
      assert rel[|rel| - 1] == stripped[|stripped| - 1];
    }
  }

  /** Fixing a fixed URL changes nothing. */
  lemma {:induction false} FixImageUrlIdempotent(path: string)
    ensures FixImageUrl(FixImageUrl(path)) == FixImageUrl(path)
  {
    var r := FixImageUrl(path);
    if path != "" {
      var stripped := Strip(path);
      if StartsWith(stripped, "http") {
        StripIdempotent(path);
      } else {
        BuiltUrlShape(path);
        StripFixed(r);
      }
    }
  }

  /** A path that is under `image/` once stripped of whitespace and leading slashes is not an `http` URL. */
  lemma UnderImageDirNotHttp(path: string)
    requires StartsWith(LStrip(Strip(path), IsSlash), ImageDir)
    ensures path != "" && !StartsWith(Strip(path), "http")
  {
    SlashesThenImageDirNotHttp(Strip(path));
    StripNonEmpty(path);
  }

  /** Leading slashes and then `image/` is not an `http` URL. */
  lemma SlashesThenImageDirNotHttp(s: string)
    requires StartsWith(LStrip(s, IsSlash), ImageDir)
    ensures s != [] && !StartsWith(s, "http")
  {
    var rel := LStrip(s, IsSlash);
    assert rel[0] == 'i' by {
      assert rel[..|ImageDir|] == ImageDir;
    }
    FirstBeforeSlashes(s, 'i');
    assert s[..4][0] == s[0];
  }

  /** A string whose `lstrip("/")` starts with `c` starts with `/` or with `c`. */
  lemma FirstBeforeSlashes(s: string, c: char)
    requires LStrip(s, IsSlash) != [] && LStrip(s, IsSlash)[0] == c
    ensures s != [] && (s[0] == '/' || s[0] == c)
  {
    var r := LStrip(s, IsSlash);
    assert s[|s| - |r|] == r[0];
  }

  /**
   * A path already under `image/`, once surrounding whitespace and leading slashes are
   * gone, is placed on the site root without a second `image/`.
   */
  lemma ImageDirNotDoubled(path: string)
    requires StartsWith(LStrip(Strip(path), IsSlash), ImageDir)
    ensures FixImageUrl(path) == SiteRoot + LStrip(Strip(path), IsSlash)
  {
    UnderImageDirNotHttp(path);
    var rel := LStrip(Strip(path), IsSlash);
    assert UnderImageDir(rel) == rel;
  }
}

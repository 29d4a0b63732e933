/** The MIME-type lookup of the storage adapter (getContentType in
    backend/src/shared/storage/s3-adapter.ts). */
module ContentType {

  import opened Base

  const DefaultType := "application/octet-stream"

  /** The `contentTypes` table, keyed by lower-case extension. */
  const ContentTypes: map<string, string> := map[
    "mp4" := "video/mp4",
    "m3u8" := "application/x-mpegURL",
    "ts" := "video/MP2T",
    "pdf" := "application/pdf",
    "jpg" := "image/jpeg",
    "jpeg" := "image/jpeg",
    "png" := "image/png",
    "webp" := "image/webp"
  ]

  /** `filename.split('.').pop()`: the text after the last '.', or the whole name
      when it has no '.'. */
  function Extension(filename: string): (ext: string)
    ensures '.' !in ext
    ensures |ext| <= |filename| && ext == filename[|filename| - |ext|..]
    ensures '.' in filename ==> filename[|filename| - |ext| - 1] == '.'
    ensures '.' !in filename ==> ext == filename
  {
    if filename == [] then []
    else if filename[|filename| - 1] == '.' then []
    else
      var init := filename[..|filename| - 1];
      var ext := Extension(init) + [filename[|filename| - 1]];
      assert filename == init + [filename[|filename| - 1]];
      ext
  }

  function LowerChar(c: char): char
  {
    if 'A' <= c <= 'Z' then (c as int + 32) as char else c
  }

  /** `toLowerCase`, on the letters that can occur in a table key: the result has no
      upper-case ASCII letter, each upper-case letter becomes its lower-case partner and
      every other character is kept. */
  function ToLower(s: string): (r: string)
    ensures |r| == |s|
    ensures forall k | 0 <= k < |r| :: !('A' <= r[k] <= 'Z')
    ensures forall k | 0 <= k < |s| :: 'A' <= s[k] <= 'Z' ==> 'a' <= r[k] <= 'z' && r[k] as int - 'a' as int == s[k] as int - 'A' as int
    ensures forall k | 0 <= k < |s| :: !('A' <= s[k] <= 'Z') ==> r[k] == s[k]
  {
    seq(|s|, k requires 0 <= k < |s| => LowerChar(s[k]))
  }

  /** getContentType (s3-adapter.ts:289-303): always a type of the table or the default,
      and the default exactly when the lower-cased extension is no key of the table. */
  function GetContentType(filename: string): (r: string)
    ensures r == DefaultType <==> ToLower(Extension(filename)) !in ContentTypes
  {
    Lookup(ToLower(Extension(filename)))
  }

  /** `contentTypes[extension] || 'application/octet-stream'`: a missing key gives
      `undefined` and an empty entry would be falsy too, so both fall back. No entry of the
      table is empty, so the fallback happens exactly for the extensions it lacks. */
  function Lookup(ext: string): (r: string)
    ensures ext in ContentTypes ==> r == ContentTypes[ext]
    ensures r == DefaultType <==> ext !in ContentTypes
  {
    var hit: Option<string> := if ext in ContentTypes then Some(ContentTypes[ext]) else None;
    if hit.Some? && hit.value != "" then hit.value else DefaultType
  }

  /** Lower-casing leaves '.' alone, so it commutes with taking the extension. */
  lemma {:induction false} ExtensionOfLower(filename: string)
    ensures Extension(ToLower(filename)) == ToLower(Extension(filename))
    decreases |filename|
  {
    if filename != [] && filename[|filename| - 1] != '.' {
      var init := filename[..|filename| - 1];
      var c := filename[|filename| - 1];
      ExtensionOfLower(init);
      var lower := ToLower(filename);
      assert lower[..|lower| - 1] == ToLower(init);
      assert lower[|lower| - 1] == LowerChar(c) != '.';
      assert Extension(lower) == ToLower(Extension(init)) + [LowerChar(c)];
      assert Extension(filename) == Extension(init) + [c];
      LowerAppend(Extension(init), c);
    }
  }

  lemma LowerAppend(s: string, c: char)
    ensures ToLower(s + [c]) == ToLower(s) + [LowerChar(c)]
  {
  }

  /** The lookup is case-insensitive: names that agree up to letter case get the same type. */
  lemma CaseInsensitive(f: string, g: string)
    requires ToLower(f) == ToLower(g)
    ensures GetContentType(f) == GetContentType(g)
  {
    ExtensionOfLower(f);
    ExtensionOfLower(g);
    LowerIdempotent(Extension(f));
    LowerIdempotent(Extension(g));
  }

  lemma LowerIdempotent(s: string)
    ensures ToLower(ToLower(s)) == ToLower(s)
  {
  }

  /** A trailing '.' leaves an empty extension, which maps to the default type. */
  lemma TrailingDotIsUnknown(f: string)
    ensures Extension(f + ".") == ""
    ensures GetContentType(f + ".") == DefaultType
  {
    assert "" !in ContentTypes;
  }

  /** The extension of `stem.ext` is `ext` whatever the stem holds. */
  lemma {:induction false} ExtensionAfterLastDot(stem: string, ext: string)
    requires '.' !in ext
    ensures Extension(stem + "." + ext) == ext
    decreases |ext|
  {
    var name := stem + "." + ext;
    if ext == [] {
      assert name == stem + ".";
      assert name[|name| - 1] == '.';
    } else {
      var last := ext[|ext| - 1];
      var shorter := ext[..|ext| - 1];
      assert name[|name| - 1] == last;
      assert name[..|name| - 1] == stem + "." + shorter;
      ExtensionAfterLastDot(stem, shorter);
      assert ext == shorter + [last];
    }
  }

  /** Only the extension decides: a prefix ending in '.' does not change the type. */
  lemma OnlyExtensionMatters(stem: string, ext: string)
    requires '.' !in ext
    ensures GetContentType(stem + "." + ext) == GetContentType(ext)
  {
    ExtensionAfterLastDot(stem, ext);
  }

  /** Both jpg and jpeg name JPEG images, whatever the stem. */
  lemma JpgAndJpegAgree(stem: string)
    ensures GetContentType(stem + ".jpg") == GetContentType(stem + ".jpeg") == "image/jpeg"
  {
    assert stem + ".jpg" == stem + "." + "jpg";
    assert stem + ".jpeg" == stem + "." + "jpeg";
    JpegKeyNamed(stem, "jpg");
    JpegKeyNamed(stem, "jpeg");
  }

  lemma JpegKeyNamed(stem: string, ext: string)
    requires ext == "jpg" || ext == "jpeg"
    ensures GetContentType(stem + "." + ext) == "image/jpeg"
  {
    KeyNamed(stem, ext, "image/jpeg");
  }

  /** A file named after a lower-case key of the table gets that key's entry. */
  lemma KeyNamed(stem: string, ext: string, mime: string)
    requires '.' !in ext && ext in ContentTypes && ContentTypes[ext] == mime
    requires forall k | 0 <= k < |ext| :: !('A' <= ext[k] <= 'Z')
    ensures GetContentType(stem + "." + ext) == mime
  {
    ExtensionAfterLastDot(stem, ext);
    KeyLooksUp(ext, mime);
  }

  /** A lower-case key of the table is looked up to its entry. */
  lemma KeyLooksUp(ext: string, mime: string)
    requires ext in ContentTypes && ContentTypes[ext] == mime
    requires forall k | 0 <= k < |ext| :: !('A' <= ext[k] <= 'Z')
    ensures Lookup(ToLower(ext)) == mime
  {
    assert ToLower(ext) == ext;
  }

  /** A name without '.' is all extension, so "mp4" is a video. */
  lemma BareNameIsExtension(name: string)
    requires '.' !in name
    ensures GetContentType(name) == Lookup(ToLower(name))
    ensures GetContentType("mp4") == "video/mp4"
  {
    assert '.' !in "mp4";
    KeyLooksUp("mp4", "video/mp4");
  }
}

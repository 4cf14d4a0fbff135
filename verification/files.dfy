/**
 * The file service's string handling: stripping a `data:image/...;base64,`
 * prefix, the paths returned by `storeFile` and `storeBase64File`, and
 * the result map of `deleteFiles`. Storage itself is a set of existing
 * keys; random names are parameters.
 */
module Files {
  import opened Common

  const Public: string := "public/"
  const DataImage: string := "data:image/"
  const Base64Marker: string := ";base64,"

  predicate StartsWith(s: string, p: string) {
    |p| <= |s| && s[..|p|] == p
  }

  /** PCRE's `\w` without the `u` modifier. */
  predicate IsWordChar(c: char) {
    ('a' <= c <= 'z') || ('A' <= c <= 'Z') || ('0' <= c <= '9') || c == '_'
  }

  predicate AllWordChars(w: string) {
    forall i :: 0 <= i < |w| ==> IsWordChar(w[i])
  }

  /** The length of the longest run of word characters at the start of `s`. */
  function WordRun(s: string): (n: nat)
    ensures n <= |s|
    ensures AllWordChars(s[..n])
    ensures n < |s| ==> !IsWordChar(s[n])
  {
    if |s| == 0 || !IsWordChar(s[0]) then 0
    else
      var k := WordRun(s[1..]);
      assert s[..1 + k] == [s[0]] + s[1..][..k];
      1 + k
  }

  /**
   * `preg_match('/^data:image\/(\w+);base64,/', $s)`. The greedy `\w+`
   * cannot give back characters, since `;` is not a word character, so
   * the match is: the fixed head, a non-empty word run, the marker.
   */
  predicate HasDataUriPrefix(s: string) {
    StartsWith(s, DataImage)
    && var t := s[|DataImage|..];
       WordRun(t) > 0 && StartsWith(t[WordRun(t)..], Base64Marker)
  }

  /** `strpos($s, $c)`: the first position of `c`, if any. */
  function IndexOf(s: string, c: char): (r: Option<nat>)
    ensures r.Some? ==> r.value < |s| && s[r.value] == c && forall j :: 0 <= j < r.value ==> s[j] != c
    ensures r.None? ==> forall j :: 0 <= j < |s| ==> s[j] != c
  {
    if |s| == 0 then None
    else if s[0] == c then Some(0)
    else match IndexOf(s[1..], c)
      case None => None
      case Some(k) => Some(k + 1)
  }

  /**
   * extractBase64Content: with the prefix, everything after the first
   * comma; without it, the input unchanged. The output is always a suffix
   * of the input.
   */
  function ExtractBase64Content(s: string): (r: string)
    ensures |r| <= |s| && r == s[|s| - |r|..]
    ensures !HasDataUriPrefix(s) ==> r == s
  {
    if HasDataUriPrefix(s) then
      match IndexOf(s, ',')
      case Some(i) => s[i + 1..]
      // strpos finds the marker's own comma, so this case does not arise
      case None => s
    else s
  }

  lemma WordRunStopsAt(w: string, x: string)
    requires AllWordChars(w)
    requires |x| > 0 && !IsWordChar(x[0])
    ensures WordRun(w + x) == |w|
    decreases |w|
  {
    if |w| > 0 {
      assert (w + x)[1..] == w[1..] + x;
      WordRunStopsAt(w[1..], x);
    }
  }

  /** The pattern matches every `data:image/<word chars>;base64,` head. */
  lemma HeadRecognised(w: string, rest: string)
    requires |w| > 0 && AllWordChars(w)
    ensures HasDataUriPrefix(DataImage + w + Base64Marker + rest)
  {
    var s := DataImage + w + Base64Marker + rest;
    var t := s[|DataImage|..];
    assert t == w + (Base64Marker + rest);
    WordRunStopsAt(w, Base64Marker + rest);
    assert t[|w|..] == Base64Marker + rest;
  }

  /** Word characters carry no comma, so the first comma is the marker's own. */
  lemma FirstCommaEndsMarker(w: string, rest: string)
    requires AllWordChars(w)
    ensures IndexOf(DataImage + w + Base64Marker + rest, ',') == Some(|DataImage| + |w| + |Base64Marker| - 1)
  {
    var s := DataImage + w + Base64Marker + rest;
    var comma := |DataImage| + |w| + |Base64Marker| - 1;
    assert s[comma] == ',';
    forall j | 0 <= j < comma
      ensures s[j] != ','
    {
      if j < |DataImage| {
        assert s[j] == DataImage[j];
      } else if j < |DataImage| + |w| {
        assert s[j] == w[j - |DataImage|];
      } else {
        assert s[j] == Base64Marker[j - |DataImage| - |w|];
      }
    }
  }

  /**
   * Any `data:image/<word chars>;base64,` head is recognised, and exactly
   * the text after it comes back.
   */
  lemma ExtractAfterPrefix(w: string, rest: string)
    requires |w| > 0 && AllWordChars(w)
    ensures HasDataUriPrefix(DataImage + w + Base64Marker + rest)
    ensures ExtractBase64Content(DataImage + w + Base64Marker + rest) == rest
  {
    var s := DataImage + w + Base64Marker + rest;
    HeadRecognised(w, rest);
    FirstCommaEndsMarker(w, rest);
    assert s[|DataImage| + |w| + |Base64Marker|..] == rest;
  }

  /** The image subtype the pattern captured. */
  function ImageSubtype(s: string): string
    requires HasDataUriPrefix(s)
  {
    var t := s[|DataImage|..];
    t[..WordRun(t)]
  }

  /** Conversely, a recognised input is that head followed by the extracted text. */
  lemma PrefixThenExtract(s: string)
    requires HasDataUriPrefix(s)
    ensures |ImageSubtype(s)| > 0 && AllWordChars(ImageSubtype(s))
    ensures s == DataImage + ImageSubtype(s) + Base64Marker + ExtractBase64Content(s)
  {
    var t := s[|DataImage|..];
    var w := t[..WordRun(t)];
    var rest := t[WordRun(t) + |Base64Marker|..];
    assert s == DataImage + w + Base64Marker + rest;
    ExtractAfterPrefix(w, rest);
  }

  /** Whether `public/` occurs in `s` at position `i`. */
  predicate PublicAt(s: string, i: int) {
    0 <= i && i + |Public| <= |s| && s[i..i + |Public|] == Public
  }

  /** `str_replace('public/', '', $s)`: every occurrence, scanning left to right, without rescanning. */
  function StripPublic(s: string): (r: string)
    ensures |r| <= |s|
    decreases |s|
  {
    if StartsWith(s, Public) then StripPublic(s[|Public|..])
    else if |s| == 0 then ""
    else [s[0]] + StripPublic(s[1..])
  }

  /** A string without any occurrence comes back unchanged. */
  lemma {:induction false} StripPublicIdentity(s: string)
    requires forall i :: !PublicAt(s, i)
    ensures StripPublic(s) == s
    decreases |s|
  {
    assert !PublicAt(s, 0);
    if |s| > 0 {
      forall i ensures !PublicAt(s[1..], i) {
        if PublicAt(s[1..], i) {
          assert s[1..][i..i + |Public|] == s[i + 1..i + 1 + |Public|];
          assert PublicAt(s, i + 1);
        }
      }
      StripPublicIdentity(s[1..]);
    }
  }

  /** The stored name: the given one unless it is falsy, else a random name with the extension. */
  function StoredName(filename: Option<string>, random: string, ext: string): (r: string)
    ensures filename.Some? && filename.value != "" && filename.value != "0" ==> r == filename.value
    ensures filename.None? || filename.value == "" || filename.value == "0" ==> r == random + "." + ext
  {
    if filename.Some? && filename.value != "" && filename.value != "0" then filename.value else random + "." + ext
  }

  /** A stored file: where it lives in storage and the path the service hands back. */
  datatype StoredFile = StoredFile(storageKey: string, returned: string)

  /** storeFile as written: the file goes under `public/<dir>`, and every `public/` is cut from the path. */
  function StoreFileAsWritten(dir: string, filename: Option<string>, random: string, ext: string): (r: StoredFile)
    ensures r.storageKey == Public + dir + "/" + StoredName(filename, random, ext)
    ensures |r.returned| <= |r.storageKey| - |Public|
  {
    var key := Public + dir + "/" + StoredName(filename, random, ext);
    assert StartsWith(key, Public);
    StoredFile(key, StripPublic(key))
  }

  /** storeBase64File as written; the decoded payload is the extracted base64 text. */
  function StoreBase64FileAsWritten(content: string, dir: string, random: string, ext: string): (r: (StoredFile, string))
    ensures r.0.storageKey == Public + dir + "/" + random + "." + ext
    ensures r.0 == StoreFileAsWritten(dir, None, random, ext)
    ensures r.1 == ExtractBase64Content(content)
  {
    (StoreFileAsWritten(dir, None, random, ext), ExtractBase64Content(content))
  }

  /**
   * A directory whose name contains `public/` loses it from the returned
   * path: the file stored at `public/public/x.png` is reported as `x.png`,
   * which `deleteFile` then looks for at `public/x.png`.
   */
  lemma StripPublicLosesInnerDirectory()
    ensures StoreFileAsWritten("public", Some("x.png"), "r", "png").storageKey == "public/public/x.png"
    ensures StoreFileAsWritten("public", Some("x.png"), "r", "png").returned == "x.png"
    ensures Public + StoreFileAsWritten("public", Some("x.png"), "r", "png").returned
         != StoreFileAsWritten("public", Some("x.png"), "r", "png").storageKey
  {
    var key := "public/public/x.png";
    assert StartsWith(key, Public);
    assert key[|Public|..] == "public/x.png";
    InnerPublicStripped();
  }

  /** The inner `public/` goes as well. */
  lemma InnerPublicStripped()
    ensures StripPublic("public/x.png") == "x.png"
  {
    assert StartsWith("public/x.png", Public);
    assert "public/x.png"[|Public|..] == "x.png";
    NoPublicInName();
  }

  /** `x.png` holds no `public/`, so str_replace leaves it alone. */
  lemma NoPublicInName()
    ensures StripPublic("x.png") == "x.png"
  {
    assert !StartsWith("x.png", Public);
    assert StripPublic("x.png") == "x" + StripPublic(".png");
    assert StripPublic(".png") == "." + StripPublic("png");
    assert StripPublic("png") == "p" + StripPublic("ng");
    assert StripPublic("ng") == "n" + StripPublic("g");
    assert StripPublic("g") == "g" + StripPublic("");
  }

  /** The intended rewrite: drop the leading `public/` only. */
  function StripLeading(s: string): (r: string)
    ensures StartsWith(s, Public) ==> Public + r == s
    ensures !StartsWith(s, Public) ==> r == s
  {
    if StartsWith(s, Public) then s[|Public|..] else s
  }

  /** storeFile with the leading-prefix rewrite: the returned path always addresses the stored file. */
  function StoreFile(dir: string, filename: Option<string>, random: string, ext: string): (r: StoredFile)
    ensures r.storageKey == Public + dir + "/" + StoredName(filename, random, ext)
    ensures Public + r.returned == r.storageKey
    ensures r.returned == dir + "/" + StoredName(filename, random, ext)
  {
    var key := Public + dir + "/" + StoredName(filename, random, ext);
    assert StartsWith(key, Public);
    assert key[|Public|..] == dir + "/" + StoredName(filename, random, ext);
    StoredFile(key, StripLeading(key))
  }

  /** storeBase64File with the leading-prefix rewrite. */
  function StoreBase64File(content: string, dir: string, random: string, ext: string): (r: (StoredFile, string))
    ensures r.0.storageKey == Public + dir + "/" + random + "." + ext
    ensures Public + r.0.returned == r.0.storageKey
    ensures r.1 == ExtractBase64Content(content)
  {
    (StoreFile(dir, None, random, ext), ExtractBase64Content(content))
  }

  /** Where the directory and name hold no `public/`, the code as written and the corrected rewrite agree. */
  lemma AsWrittenAgreesWithoutInnerPublic(dir: string, filename: Option<string>, random: string, ext: string)
    requires forall i :: !PublicAt(dir + "/" + StoredName(filename, random, ext), i)
    ensures StoreFileAsWritten(dir, filename, random, ext) == StoreFile(dir, filename, random, ext)
  {
    var tail := dir + "/" + StoredName(filename, random, ext);
    var key := Public + tail;
    assert StartsWith(key, Public) && key[|Public|..] == tail;
    StripPublicIdentity(tail);
  }

  /**
   * deleteFiles: each path is deleted under `public/` if it exists there;
   * the result maps every given path to whether that call deleted it. A
   * path given twice ends as false: the second call finds nothing and
   * overwrites the entry.
   */
  method DeleteFiles(paths: seq<string>, existing: set<string>) returns (results: map<string, bool>, remaining: set<string>)
    ensures results.Keys == set i | 0 <= i < |paths| :: paths[i]
    ensures forall p :: p in results ==> (results[p] <==> Public + p in existing && multiset(paths)[p] == 1)
    ensures remaining == existing - set i | 0 <= i < |paths| :: Public + paths[i]
  {
    results := map[];
    remaining := existing;
    var i := 0;
    while i < |paths|
      invariant 0 <= i <= |paths|
      invariant results.Keys == set j | 0 <= j < i :: paths[j]
      invariant forall p :: p in results ==> (results[p] <==> Public + p in existing && multiset(paths[..i])[p] == 1)
      invariant remaining == existing - set j | 0 <= j < i :: Public + paths[j]
    {
      var path := paths[i];
      var deleted := Public + path in remaining;
      assert deleted <==> Public + path in existing && multiset(paths[..i])[path] == 0 by {
        if multiset(paths[..i])[path] > 0 {
          var j :| 0 <= j < i && paths[..i][j] == path;
          assert paths[j] == path;
        }
        if Public + path in existing && Public + path !in remaining {
          var j :| 0 <= j < i && Public + paths[j] == Public + path;
          assert paths[j] == (Public + paths[j])[|Public|..] == path;
          assert paths[..i][j] == path;
        }
      }
      remaining := remaining - {Public + path};
      results := results[path := deleted];
      assert paths[..i + 1] == paths[..i] + [path];
      i := i + 1;
    }
    assert paths[..|paths|] == paths;
  }
}

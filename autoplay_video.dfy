/** `getBlurredPoster` of src/components/AutoplayVideo.tsx: a Cloudinary video
    URL becomes the URL of a tiny blurred JPEG of its first frame, by two
    regular-expression replacements. Each regular expression is modelled by an
    explicit matcher, proved to find exactly the match JavaScript's leftmost,
    non-global `replace` would. */
module AutoplayVideo {
  import opened Common

  const CloudinaryHost: string := "res.cloudinary.com"
  const UploadPath: string := "/video/upload/"
  const BlurredUploadPath: string := "/video/upload/e_blur:2000,q_1,w_40,f_jpg/"
  const JpgExtension: string := ".jpg"

  /** `t` occurs in `s` at `i`. */
  predicate OccursAt(s: string, t: string, i: nat) {
    i + |t| <= |s| && s[i..i + |t|] == t
  }

  /** The first occurrence of `t` in `s` at or after `i`. */
  function FindFrom(s: string, t: string, i: nat): (r: Option<nat>)
    requires i <= |s|
    ensures r.Some? ==> i <= r.value && OccursAt(s, t, r.value) &&
                        forall j :: i <= j < r.value ==> !OccursAt(s, t, j)
    ensures r.None? ==> forall j :: i <= j <= |s| ==> !OccursAt(s, t, j)
    decreases |s| - i
  {
    if OccursAt(s, t, i) then Some(i)
    else if i == |s| then None
    else FindFrom(s, t, i + 1)
  }

  /** `s.includes(t)`. */
  predicate Includes(s: string, t: string) {
    FindFrom(s, t, 0).Some?
  }

  /** `[^/]+\/` right after the literal `/video/upload/` at `p`, ending just
      before `e`: a non-empty run of characters other than `/`, then a `/`. */
  predicate UploadMatch(s: string, p: nat, e: nat) {
    OccursAt(s, UploadPath, p) &&
    p + |UploadPath| + 1 < e <= |s| && s[e - 1] == '/' &&
    forall i :: p + |UploadPath| <= i < e - 1 ==> s[i] != '/'
  }

  /** The first `/` at or after `i`. */
  function NextSlash(s: string, i: nat): (r: Option<nat>)
    requires i <= |s|
    ensures r.Some? ==> i <= r.value < |s| && s[r.value] == '/' &&
                        forall j :: i <= j < r.value ==> s[j] != '/'
    ensures r.None? ==> forall j :: i <= j < |s| ==> s[j] != '/'
    decreases |s| - i
  {
    if i == |s| then None
    else if s[i] == '/' then Some(i)
    else NextSlash(s, i + 1)
  }

  /** The end of the match of `\/video\/upload\/[^/]+\/` starting at `p`, if
      there is one; since `[^/]` cannot cross a slash, there is at most one. */
  function UploadMatchAt(s: string, p: nat): (r: Option<nat>)
    requires p <= |s|
    ensures r.Some? ==> UploadMatch(s, p, r.value)
    ensures r.None? ==> forall e :: !UploadMatch(s, p, e)
  {
    if !OccursAt(s, UploadPath, p) then None
    else match NextSlash(s, p + |UploadPath|)
      case None => None
      case Some(q) =>
        if q == p + |UploadPath| then None else Some(q + 1)
  }

  /** The leftmost match of the upload pattern at or after `p`, as its start
      and end. */
  function FindUpload(s: string, p: nat): (r: Option<(nat, nat)>)
    requires p <= |s|
    ensures r.Some? ==> p <= r.value.0 && UploadMatch(s, r.value.0, r.value.1) &&
                        forall j, e :: p <= j < r.value.0 ==> !UploadMatch(s, j, e)
    ensures r.None? ==> forall j, e :: p <= j <= |s| ==> !UploadMatch(s, j, e)
    decreases |s| - p
  {
    match UploadMatchAt(s, p)
    case Some(e) => Some((p, e))
    case None => if p == |s| then None else FindUpload(s, p + 1)
  }

  /** The first `.replace`: the segment after `/video/upload/` in the leftmost
      match becomes the blur transformation. */
  function ReplaceUpload(s: string): string {
    match FindUpload(s, 0)
    case None => s
    case Some((p, e)) => s[..p] + BlurredUploadPath + s[e..]
  }

  /** `\w`: ASCII letters, digits and `_`. */
  predicate IsWordChar(c: char) {
    'a' <= c <= 'z' || 'A' <= c <= 'Z' || '0' <= c <= '9' || c == '_'
  }

  /** `\.\w+$` matches at `p`: a dot followed by one or more word characters
      up to the end of the string. */
  predicate ExtensionAt(s: string, p: nat) {
    p + 1 < |s| && s[p] == '.' && forall i :: p < i < |s| ==> IsWordChar(s[i])
  }

  /** Where the maximal run of word characters at the end of `s[..k]` starts. */
  function WordSuffixStart(s: string, k: nat): (r: nat)
    requires k <= |s|
    ensures r <= k && forall i :: r <= i < k ==> IsWordChar(s[i])
    ensures r > 0 ==> !IsWordChar(s[r - 1])
  {
    if k == 0 || !IsWordChar(s[k - 1]) then k else WordSuffixStart(s, k - 1)
  }

  /** The position of the extension's dot, if the string ends in one. A dot
      is not a word character, so there is at most one such position. */
  function FindExtension(s: string): (r: Option<nat>)
    ensures r.Some? ==> ExtensionAt(s, r.value)
    ensures r.None? ==> forall p: nat :: !ExtensionAt(s, p)
    ensures forall p: nat, q: nat :: ExtensionAt(s, p) && ExtensionAt(s, q) ==> p == q
  {
    var k := WordSuffixStart(s, |s|);
    assert forall p: nat :: ExtensionAt(s, p) ==> p == k - 1 by {
      forall p: nat | ExtensionAt(s, p)
        ensures p == k - 1
      {
        assert !IsWordChar(s[p]);
        assert p < k;
      }
    }
    if 0 < k < |s| && s[k - 1] == '.' then Some(k - 1) else None
  }

  /** The second `.replace`: the extension, if any, becomes `.jpg`. */
  function ReplaceExtension(s: string): string {
    match FindExtension(s)
    case None => s
    case Some(p) => s[..p] + JpgExtension
  }

  /** `getBlurredPoster`: null for a URL that is not on Cloudinary. */
  function GetBlurredPoster(videoSrc: string): Option<string> {
    if !Includes(videoSrc, CloudinaryHost) then None
    else Some(ReplaceExtension(ReplaceUpload(videoSrc)))
  }

  /** The poster is null exactly when the host does not occur in the URL. */
  lemma {:induction false} PosterNullIffNotCloudinary(videoSrc: string)
    ensures GetBlurredPoster(videoSrc).None? <==>
      forall i :: 0 <= i <= |videoSrc| ==> !OccursAt(videoSrc, CloudinaryHost, i)
  {
    var r := FindFrom(videoSrc, CloudinaryHost, 0);
    if r.Some? {
      assert OccursAt(videoSrc, CloudinaryHost, r.value);
    }
  }

  /** The first replacement rewrites the leftmost match only: the text before
      it and after it (including any later `/video/upload/...`) is kept. */
  lemma {:induction false} ReplaceUploadSpec(s: string)
    ensures var m := FindUpload(s, 0);
      (m.None? ==> ReplaceUpload(s) == s) &&
      (m.Some? ==> (UploadMatch(s, m.value.0, m.value.1) &&
         (forall j, e :: 0 <= j < m.value.0 ==> !UploadMatch(s, j, e)) &&
         ReplaceUpload(s) == s[..m.value.0] + BlurredUploadPath + s[m.value.1..]))
    ensures (forall j, e :: !UploadMatch(s, j, e)) ==> ReplaceUpload(s) == s
  {
    var m := FindUpload(s, 0);
    if m.Some? {
      var e := m.value.1;
      assert UploadMatch(s, m.value.0, e);
    }
  }

  /** The second replacement keeps everything before the dot and makes the
      string end in `.jpg`; a string without an extension is unchanged. */
  lemma {:induction false} ReplaceExtensionSpec(s: string)
    ensures (exists p: nat :: ExtensionAt(s, p)) ==>
      exists p: nat :: ExtensionAt(s, p) && ReplaceExtension(s) == s[..p] + JpgExtension
    ensures (forall p: nat :: !ExtensionAt(s, p)) ==> ReplaceExtension(s) == s
    ensures (exists p: nat :: ExtensionAt(s, p)) ==>
      |ReplaceExtension(s)| >= 4 && ReplaceExtension(s)[|ReplaceExtension(s)| - 4..] == JpgExtension
  {
    var m := FindExtension(s);
    if m.Some? {
      var r := s[..m.value] + JpgExtension;
      assert r[|r| - 4..] == JpgExtension;
    }
  }
}

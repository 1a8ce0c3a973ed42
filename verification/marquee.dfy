/** The storefront's brand strip: how a brand's logo path becomes an image
    address, the chain of extensions tried when the image fails to load,
    and the doubled track that lets the strip scroll without a seam. */
module Marquee {
  import opened Common

  /** The logo path already names an image file: it ends in `.jpg`,
      `.jpeg`, `.png` or `.svg`, in any letter case. */
  predicate HasImageExtension(path: string)
  {
    var l := Lower(path);
    EndsWith(l, ".jpg") || EndsWith(l, ".jpeg") || EndsWith(l, ".png") || EndsWith(l, ".svg")
  }

  /** `resolveLogoSrc`: no address for an empty path, an image path as it
      is, and `.jpg` appended to anything else. */
  function ResolveLogoSrc(base: string): (r: string)
    ensures r == "" <==> base == ""
    ensures |base| <= |r| <= |base| + 4 && r[..|base|] == base
    ensures HasImageExtension(base) ==> r == base
    ensures base != "" && !HasImageExtension(base) ==> r == base + ".jpg"
  {
    if base == "" then ""
    else if HasImageExtension(base) then base
    else base + ".jpg"
  }

  /** Lower-casing the two halves of a concatenation separately. */
  lemma LowerAppend(a: string, b: string)
    ensures Lower(a + b) == Lower(a) + Lower(b)
  {
    assert forall i :: 0 <= i < |a + b| ==> Lower(a + b)[i] == (Lower(a) + Lower(b))[i];
  }

  /** Every address the strip asks for first names an image file, and
      resolving it again changes nothing. */
  lemma ResolvedIsImage(base: string)
    ensures ResolveLogoSrc(base) != "" ==> HasImageExtension(ResolveLogoSrc(base))
    ensures ResolveLogoSrc(ResolveLogoSrc(base)) == ResolveLogoSrc(base)
  {
    if base != "" && !HasImageExtension(base) {
      var r := base + ".jpg";
      LowerAppend(base, ".jpg");
      assert Lower(".jpg") == ".jpg";
      assert Lower(r)[|Lower(r)| - 4..] == ".jpg";
      assert HasImageExtension(r);
    }
  }

  /** A character that ends a final extension in the pattern `\.[^/.]+$`. */
  predicate Separator(c: char)
  {
    c == '/' || c == '.'
  }

  /** The pattern `\.[^/.]+$` matches `src` from position `i`: a dot, at
      least one more character, and no slash or dot after it. */
  predicate MatchesAt(src: string, i: int)
  {
    0 <= i < |src| - 1 && src[i] == '.' && forall j :: i < j < |src| ==> !Separator(src[j])
  }

  /** Where the final extension starts, if the pattern matches at all. */
  function ExtensionStart(src: string): (r: Option<nat>)
    ensures r.Some? ==> MatchesAt(src, r.value)
    ensures r.None? ==> forall i :: !MatchesAt(src, i)
  {
    if |src| < 2 || Separator(src[|src| - 1]) then None
    else if src[|src| - 2] == '.' then Some(|src| - 2)
    else
      var p := src[..|src| - 1];
      match ExtensionStart(p)
      case Some(i) =>
        assert forall j :: i < j < |src| ==> src[j] == if j < |p| then p[j] else src[|src| - 1];
        Some(i)
      case None =>
        assert forall i :: MatchesAt(src, i) ==> MatchesAt(p, i);
        None
  }

  /** The pattern matches in at most one place. */
  lemma MatchUnique(src: string, i: int, j: int)
    requires MatchesAt(src, i) && MatchesAt(src, j)
    ensures i == j
  {
  }

  /** `src.replace(/\.[^/.]+$/, ext)` as the error handler calls it: the
      final extension is swapped for `ext`, and a path the pattern does not
      match comes back unchanged. */
  function ReplaceAsWritten(src: string, ext: string): (r: string)
    ensures ExtensionStart(src).None? ==> r == src
    ensures ExtensionStart(src).Some? ==> r == src[..ExtensionStart(src).value] + ext
    ensures ExtensionStart(src).Some? ==> EndsWith(r, ext)
  {
    match ExtensionStart(src)
    case Some(i) => src[..i] + ext
    case None => src
  }

  /** `src` without its final extension. */
  function Stem(src: string): (r: string)
    ensures |r| <= |src| && r == src[..|r|]
    ensures ExtensionStart(src).None? ==> r == src
    ensures ExtensionStart(src).Some? ==> r == src[..ExtensionStart(src).value]
  {
    match ExtensionStart(src)
    case Some(i) => src[..i]
    case None => src
  }

  /** The fallback address for `ext`: a path that already names an image
      file has that extension swapped for `ext`; any other path, which was
      first requested with `.jpg` appended, gets `ext` appended instead, so
      a dot inside its name is kept. */
  function Retarget(src: string, ext: string): (r: string)
    ensures src != "" ==> EndsWith(r, ext)
    ensures src != "" ==> r == Stem(ResolveLogoSrc(src)) + ext
    ensures src == "" ==> r == ""
  {
    if src == "" then ""
    else if HasImageExtension(src) then Stem(src) + ext
    else
      StemOfAppendedJpg(src);
      src + ext
  }

  /** Appending `.jpg` adds a final extension whose stem is the path itself. */
  lemma StemOfAppendedJpg(src: string)
    ensures Stem(src + ".jpg") == src
  {
    var t := src + ".jpg";
    assert MatchesAt(t, |src|) by {
      assert forall j :: |src| < j < |t| ==> t[j] == ".jpg"[j - |src|];
    }
    MatchUnique(t, ExtensionStart(t).value, |src|);
  }

  /** Where the path has an extension to replace, the two rewrites agree
      exactly when that extension is an image extension; a dotted name
      such as `ray.ban` keeps its dot only with the corrected rewrite. */
  lemma RetargetAgreesWithExtension(src: string, ext: string)
    requires ExtensionStart(src).Some?
    ensures Retarget(src, ext) == ReplaceAsWritten(src, ext) <==> HasImageExtension(src)
  {
    if !HasImageExtension(src) {
      assert |Retarget(src, ext)| == |src| + |ext|;
      assert |ReplaceAsWritten(src, ext)| < |src| + |ext|;
    }
  }

  /** The concrete dotted case: `/assets/brands/ray.ban`, served first as
      `ray.ban.jpg`, is retried as `ray.ban.jpeg` with the corrected rewrite,
      and as `ray.jpeg` as written. */
  lemma DottedNameKept()
    ensures var dir, name := "/assets/brands/ray", "ban";
      && Retarget(dir + "." + name, ".jpeg") == dir + "." + name + ".jpeg"
      && ReplaceAsWritten(dir + "." + name, ".jpeg") == dir + ".jpeg"
  {
    var dir, name := "/assets/brands/ray", "ban";
    DottedNameRewrites(dir, name, ".jpeg");
  }

  /** A path `p.e` whose last part `e` has no slash or dot and does not end
      in `g`: the corrected rewrite appends, the written one replaces `.e`. */
  lemma DottedNameRewrites(p: string, e: string, ext: string)
    requires |e| > 0 && LowerChar(e[|e| - 1]) != 'g'
    requires forall j :: 0 <= j < |e| ==> !Separator(e[j])
    ensures Retarget(p + "." + e, ext) == p + "." + e + ext
    ensures ReplaceAsWritten(p + "." + e, ext) == p + ext
  {
    var src := p + "." + e;
    NotEndingInG(src);
    assert MatchesAt(src, |p|) by {
      assert forall j :: |p| < j < |src| ==> src[j] == e[j - |p| - 1];
    }
    MatchUnique(src, ExtensionStart(src).value, |p|);
    assert src[..|p|] == p;
  }

  /** Different extensions give different addresses. */
  lemma RetargetDistinct(src: string, e1: string, e2: string)
    requires src != "" && e1 != e2
    ensures Retarget(src, e1) != Retarget(src, e2)
  {
  }

  /** The extensions the error handler tries, in order, after `.jpg`. */
  const Candidates: seq<string> := [".jpeg", ".png", ".svg"]

  /** `candidates.find((ext) => !tried.includes(ext))`. */
  function NextCandidate(tried: seq<string>): (r: Option<string>)
    ensures r.Some? ==> r.value in Candidates && r.value !in tried
    ensures r.None? <==> forall k :: 0 <= k < |Candidates| ==> Candidates[k] in tried
    ensures r.Some? ==> (exists k :: 0 <= k < |Candidates| && r.value == Candidates[k]
                          && forall j :: 0 <= j < k ==> Candidates[j] in tried)
  {
    match FirstIndex(Candidates, (e: string) => e !in tried)
    case Some(k) => Some(Candidates[k])
    case None => None
  }

  /** A logo image: the brand's path (`data-srcbase`), the extensions
      already tried (`data-tried`, split at commas) and the address shown. */
  datatype Logo = Logo(srcBase: string, tried: seq<string>, src: string)

  /** The image as rendered: the resolved address, `.jpg` already tried. */
  function Rendered(base: string): (l: Logo)
    ensures l.tried == [".jpg"] && l.srcBase == base
    ensures l.src == ResolveLogoSrc(base)
  {
    Logo(base, [".jpg"], ResolveLogoSrc(base))
  }

  /** `handleImgError` with the address rewrite as a parameter: the first
      untried candidate is recorded and the address rewritten for it from
      the brand's path; with none left the image stays as it is. */
  function Fallback(l: Logo, rewrite: (string, string) -> string): (r: Logo)
    ensures NextCandidate(l.tried).None? ==> r == l
    ensures NextCandidate(l.tried).Some? ==>
      r == Logo(l.srcBase, l.tried + [NextCandidate(l.tried).value], rewrite(l.srcBase, NextCandidate(l.tried).value))
  {
    match NextCandidate(l.tried)
    case Some(ext) => Logo(l.srcBase, l.tried + [ext], rewrite(l.srcBase, ext))
    case None => l
  }

  /** The handler as written, with the pattern replace. */
  function OnErrorAsWritten(l: Logo): (r: Logo)
    ensures r.srcBase == l.srcBase && |l.tried| <= |r.tried| <= |l.tried| + 1
    ensures NextCandidate(l.tried).None? ==> r == l
    ensures NextCandidate(l.tried).Some? ==> r.tried == l.tried + [NextCandidate(l.tried).value]
    ensures |r.tried| == |l.tried| + 1 ==> r.src == ReplaceAsWritten(l.srcBase, r.tried[|l.tried|])
  {
    Fallback(l, ReplaceAsWritten)
  }

  /** The handler with the corrected rewrite. */
  function OnError(l: Logo): (r: Logo)
    ensures r.srcBase == l.srcBase && |l.tried| <= |r.tried| <= |l.tried| + 1
    ensures NextCandidate(l.tried).None? ==> r == l
    ensures NextCandidate(l.tried).Some? ==> r.tried == l.tried + [NextCandidate(l.tried).value]
    ensures |r.tried| == |l.tried| + 1 ==> r.src == Retarget(l.srcBase, r.tried[|l.tried|])
  {
    Fallback(l, Retarget)
  }

  /** The image after `k` load failures. */
  function Failures(l: Logo, k: nat, rewrite: (string, string) -> string): Logo
  {
    if k == 0 then l else Fallback(Failures(l, k - 1, rewrite), rewrite)
  }

  function Min(a: nat, b: nat): nat
  {
    if a <= b then a else b
  }

  /** Each failure records the next candidate in order, none twice; after
      three the list is exhausted and further failures change nothing. */
  lemma {:induction false} TriedInOrder(base: string, k: nat, rewrite: (string, string) -> string)
    ensures Failures(Rendered(base), k, rewrite).tried == [".jpg"] + Candidates[..Min(k, 3)]
    ensures Failures(Rendered(base), k, rewrite).srcBase == base
    ensures 1 <= k <= 3 ==> Failures(Rendered(base), k, rewrite).src == rewrite(base, Candidates[k - 1])
    ensures k >= 3 ==> Failures(Rendered(base), k, rewrite) == Failures(Rendered(base), 3, rewrite)
  {
    if k > 0 {
      TriedInOrder(base, k - 1, rewrite);
      FallbackAfter(Failures(Rendered(base), k - 1, rewrite), Min(k - 1, 3), rewrite);
    }
  }

  /** A logo that has tried `.jpg` and the first `k` candidates moves on to
      candidate `k`, or stays as it is once all three are tried. */
  lemma FallbackAfter(l: Logo, k: nat, rewrite: (string, string) -> string)
    requires k <= 3 && l.tried == [".jpg"] + Candidates[..k]
    ensures k < 3 ==> Fallback(l, rewrite) == Logo(l.srcBase, [".jpg"] + Candidates[..k + 1], rewrite(l.srcBase, Candidates[k]))
    ensures k == 3 ==> Fallback(l, rewrite) == l
  {
    NextAfter(k);
    if k < 3 {
      assert Candidates[..k + 1] == Candidates[..k] + [Candidates[k]];
      assert l.tried + [Candidates[k]] == [".jpg"] + Candidates[..k + 1];
    }
  }

  /** With `.jpg` and the first `k` candidates tried, the next one is
      candidate `k`, and after all three there is none. */
  lemma NextAfter(k: nat)
    requires k <= 3
    ensures k < 3 ==> NextCandidate([".jpg"] + Candidates[..k]) == Some(Candidates[k])
    ensures k == 3 ==> NextCandidate([".jpg"] + Candidates[..k]).None?
  {
    var tried := [".jpg"] + Candidates[..k];
    if k < 3 {
      assert Candidates[k] !in tried;
      assert forall j :: 0 <= j < k ==> Candidates[j] == tried[j + 1];
    } else {
      assert forall j :: 0 <= j < 3 ==> Candidates[j] == tried[j + 1];
    }
  }

  /** With the corrected rewrite, the three retries ask for three different
      addresses, ending in `.jpeg`, `.png` and `.svg` in turn. */
  lemma RetriesTryEachExtension(base: string)
    requires base != ""
    ensures EndsWith(Failures(Rendered(base), 1, Retarget).src, ".jpeg")
    ensures EndsWith(Failures(Rendered(base), 2, Retarget).src, ".png")
    ensures EndsWith(Failures(Rendered(base), 3, Retarget).src, ".svg")
    ensures Failures(Rendered(base), 1, Retarget).src != Failures(Rendered(base), 2, Retarget).src
    ensures Failures(Rendered(base), 2, Retarget).src != Failures(Rendered(base), 3, Retarget).src
    ensures Failures(Rendered(base), 1, Retarget).src != Failures(Rendered(base), 3, Retarget).src
  {
    TriedInOrder(base, 1, Retarget);
    TriedInOrder(base, 2, Retarget);
    TriedInOrder(base, 3, Retarget);
    RetargetDistinct(base, ".jpeg", ".png");
    RetargetDistinct(base, ".png", ".svg");
    RetargetDistinct(base, ".jpeg", ".svg");
  }

  /** As written, a path with no extension (which `resolveLogoSrc` serves as
      `.jpg`) is retried three times at the bare path: `.jpeg`, `.png` and
      `.svg` are recorded as tried but never requested. */
  lemma ExtensionlessPathNeverRetargeted(base: string, k: nat)
    requires ExtensionStart(base).None? && 1 <= k <= 3
    ensures Failures(Rendered(base), k, ReplaceAsWritten).src == base
    ensures Failures(Rendered(base), k, ReplaceAsWritten).tried == [".jpg"] + Candidates[..k]
  {
    TriedInOrder(base, k, ReplaceAsWritten);
  }

  /** A path whose last character is not a `g` names no image file. */
  lemma NotEndingInG(path: string)
    requires |path| > 0 && LowerChar(path[|path| - 1]) != 'g'
    ensures !HasImageExtension(path)
  {
    var l := Lower(path);
    assert l[|l| - 1] != 'g';
  }

  /** A path without a dot has no final extension. */
  lemma NoDotNoExtension(path: string)
    requires '.' !in path
    ensures ExtensionStart(path).None?
  {
  }

  /** The example path has no dot and ends in `n`. */
  lemma RaybanPath(base: string)
    requires base == "/assets/brands/rayban"
    ensures '.' !in base && |base| > 0 && LowerChar(base[|base| - 1]) != 'g'
  {
  }

  /** The concrete case: a logo configured as `/assets/brands/rayban` is
      first requested with `.jpg` appended, and the second retry asks for
      the bare path again, where the corrected rewrite asks for the `.png`
      file. */
  lemma RaybanWithoutExtension()
    ensures var base := "/assets/brands/rayban";
      && ResolveLogoSrc(base) == base + ".jpg"
      && Failures(Rendered(base), 2, ReplaceAsWritten).src == base
      && Failures(Rendered(base), 2, Retarget).src == base + ".png"
  {
    var base := "/assets/brands/rayban";
    RaybanPath(base);
    DotlessLogo(base);
  }

  /** A non-empty path with no dot and no final `g` is requested with `.jpg`
      appended; its second retry asks for the bare path as written and for
      the `.png` file with the corrected rewrite. */
  lemma DotlessLogo(base: string)
    requires '.' !in base && |base| > 0 && LowerChar(base[|base| - 1]) != 'g'
    ensures ResolveLogoSrc(base) == base + ".jpg"
    ensures Failures(Rendered(base), 2, ReplaceAsWritten).src == base
    ensures Failures(Rendered(base), 2, Retarget).src == base + ".png"
  {
    NotEndingInG(base);
    NoDotNoExtension(base);
    TriedInOrder(base, 2, ReplaceAsWritten);
    TriedInOrder(base, 2, Retarget);
  }

  /** The track: the brand list twice over, so that scrolling by half its
      width wraps back to an identical picture. */
  function Track<T>(items: seq<T>): (r: seq<T>)
    ensures |r| == 2 * |items|
    ensures r[..|items|] == items && r[|items|..] == items
  {
    items + items
  }

  /** Every position of the track shows the brand at the same position of
      the list, modulo its length: each list position is shown twice, half
      a track apart. */
  lemma TrackRepeats<T>(items: seq<T>, i: nat)
    requires i < 2 * |items|
    ensures Track(items)[i] == items[if i < |items| then i else i - |items|]
    ensures i < |items| ==> Track(items)[i + |items|] == Track(items)[i]
  {
  }
}

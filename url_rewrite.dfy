/** The URL rewrite applied by `startDownload` before anything else: every
    occurrence of "https://" is replaced by "http://" (Foundation's
    `replacingOccurrences(of:with:)`, a left-to-right, non-overlapping
    replace-all, not a prefix rewrite). */
module UrlRewrite {

  const Https: string := "https://"
  const Http: string := "http://"

  /** `s` begins with `prefix`. */
  predicate StartsWith(s: string, prefix: string) {
    |prefix| <= |s| && s[..|prefix|] == prefix
  }

  /** `pattern` occurs somewhere in `s` (as a contiguous substring). */
  predicate Occurs(pattern: string, s: string)
    decreases |s|
  {
    StartsWith(s, pattern) || (s != [] && Occurs(pattern, s[1..]))
  }

  /** Replace every occurrence of `target`, scanning left to right and resuming
      after each replaced occurrence. An empty target leaves `s` unchanged. */
  function ReplaceAll(s: string, target: string, replacement: string): (r: string)
    ensures |replacement| <= |target| ==> |r| <= |s|
    decreases |s|
  {
    if target == [] || s == [] then s
    else if StartsWith(s, target) then replacement + ReplaceAll(s[|target|..], target, replacement)
    else [s[0]] + ReplaceAll(s[1..], target, replacement)
  }

  /** The normalised form of a download URL; it is also the registry key. */
  function Normalize(url: string): (r: string)
    ensures |r| <= |url|
    ensures StartsWith(url, Https) ==> StartsWith(r, Http)
  {
    var r := ReplaceAll(url, Https, Http);
    assert StartsWith(url, Https) ==> r[..|Http|] == Http;
    r
  }

  /** A string in which the target does not occur is returned unchanged. */
  lemma {:induction false} ReplaceAllWithoutMatch(s: string, target: string, replacement: string)
    requires !Occurs(target, s)
    ensures ReplaceAll(s, target, replacement) == s
    decreases |s|
  {
    if target != [] && s != [] {
      assert !StartsWith(s, target);
      ReplaceAllWithoutMatch(s[1..], target, replacement);
      assert s == [s[0]] + s[1..];
    }
  }

  /** "https://" contains no 'h' after its first character. */
  lemma HttpsTailHasNoH(k: int)
    requires 0 < k < |Https|
    ensures Https[k] != 'h'
  {
  }

  /** A prefix free of 'h' cannot start a match of "https://" and is copied
      unchanged by the rewrite. */
  lemma {:induction false} NormalizeCopiesPrefixWithoutH(w: string, r: string)
    requires 'h' !in w
    ensures Normalize(w + r) == w + Normalize(r)
    decreases |w|
  {
    if w == [] {
      assert w + r == r;
    } else {
      var s := w + r;
      assert s[0] == w[0] != 'h';
      assert !StartsWith(s, Https);
      assert s[1..] == w[1..] + r;
      NormalizeCopiesPrefixWithoutH(w[1..], r);
      assert w == [w[0]] + w[1..];
    }
  }

  /** Likewise, a prefix free of 'h' adds no occurrence of "https://". */
  lemma {:induction false} OccursAfterPrefixWithoutH(w: string, r: string)
    requires 'h' !in w
    ensures Occurs(Https, w + r) <==> Occurs(Https, r)
    decreases |w|
  {
    if w == [] {
      assert w + r == r;
    } else {
      var s := w + r;
      assert s[0] == w[0] != 'h';
      assert !StartsWith(s, Https);
      assert s[1..] == w[1..] + r;
      OccursAfterPrefixWithoutH(w[1..], r);
    }
  }

  /** "http://" is copied unchanged and never completes an occurrence of
      "https://" with what follows it. */
  lemma HttpPrefix(r: string)
    ensures Normalize(Http + r) == Http + Normalize(r)
    ensures Occurs(Https, Http + r) <==> Occurs(Https, r)
  {
    var s := Http + r;
    assert s[4] == ':' && Https[4] == 's';
    assert !StartsWith(s, Https);
    assert s[1..] == "ttp://" + r;
    NormalizeCopiesPrefixWithoutH("ttp://", r);
    OccursAfterPrefixWithoutH("ttp://", r);
  }

  /** A prefix of the normalised string is a prefix of the original unless it
      contains an 'h': the rewrite only produces new text starting with 'h'. */
  lemma {:induction false} PrefixOfNormalized(t: string, w: string)
    ensures StartsWith(Normalize(t), w) ==> 'h' in w || StartsWith(t, w)
    decreases |t|
  {
    if w != [] && StartsWith(Normalize(t), w) {
      if t == [] {
      } else if StartsWith(t, Https) {
        assert Normalize(t) == Http + Normalize(t[8..]);
        assert w[0] == Normalize(t)[0] == 'h';
      } else {
        assert Normalize(t) == [t[0]] + Normalize(t[1..]);
        assert Normalize(t)[..|w|] == [t[0]] + Normalize(t[1..])[..|w| - 1];
        assert w == [w[0]] + w[1..];
        PrefixOfNormalized(t[1..], w[1..]);
        assert |w| <= |t| ==> t[..|w|] == [t[0]] + t[1..][..|w| - 1];
      }
    }
  }

  /** "https://" at the front of a string, split at its first character. */
  lemma StartsWithHttpsCons(c: char, r: string)
    ensures StartsWith([c] + r, Https) <==> c == 'h' && StartsWith(r, "ttps://")
  {
    var t := [c] + r;
    assert Https == ['h'] + "ttps://";
    if |r| >= 7 {
      assert t[..8] == [c] + r[..7];
      if t[..8] == Https {
        assert c == t[..8][0];
        assert r[..7] == t[..8][1..] == Https[1..];
      }
    }
  }

  /** After normalisation the URL contains no "https://". */
  lemma {:induction false} NormalizeRemovesHttps(s: string)
    ensures !Occurs(Https, Normalize(s))
    decreases |s|
  {
    if s == [] {
    } else if StartsWith(s, Https) {
      NormalizeRemovesHttps(s[8..]);
      HttpPrefix(Normalize(s[8..]));
    } else {
      var rest := Normalize(s[1..]);
      var t := [s[0]] + rest;
      NormalizeRemovesHttps(s[1..]);
      assert Normalize(s) == t;
      PrefixOfNormalized(s[1..], "ttps://");
      assert 'h' !in "ttps://";
      StartsWithHttpsCons(s[0], rest);
      StartsWithHttpsCons(s[0], s[1..]);
      assert s == [s[0]] + s[1..];
      assert t[1..] == rest;
    }
  }

  /** A URL without "https://" is returned unchanged, and only such a URL. */
  lemma NormalizeFixesExactlyCleanUrls(s: string)
    ensures Normalize(s) == s <==> !Occurs(Https, s)
  {
    NormalizeRemovesHttps(s);
    if !Occurs(Https, s) {
      ReplaceAllWithoutMatch(s, Https, Http);
    }
  }

  /** Normalising twice is the same as normalising once. */
  lemma NormalizeIdempotent(s: string)
    ensures Normalize(Normalize(s)) == Normalize(s)
  {
    NormalizeRemovesHttps(s);
    ReplaceAllWithoutMatch(Normalize(s), Https, Http);
  }

  /** One step of the rewrite at the front of a string. */
  lemma NormalizeStep(s: string)
    requires s != []
    ensures StartsWith(s, Https) ==> Normalize(s) == Http + Normalize(s[8..])
    ensures !StartsWith(s, Https) ==> Normalize(s) == [s[0]] + Normalize(s[1..])
  {
  }

  /** Two URLs that differ only in one "https://" versus "http://" have the
      same normal form, wherever that difference sits. */
  lemma {:induction false} NormalizeIgnoresScheme(p: string, rest: string)
    ensures Normalize(p + Https + rest) == Normalize(p + Http + rest)
    decreases |p|
  {
    var a := p + Https + rest;
    var b := p + Http + rest;
    if p == [] {
      assert a == Https + rest && b == Http + rest;
      assert StartsWith(a, Https) && a[8..] == rest;
      NormalizeStep(a);
      HttpPrefix(rest);
    } else if StartsWith(p, Https) {
      assert a[..8] == p[..8] && b[..8] == p[..8];
      assert a[8..] == p[8..] + Https + rest;
      assert b[8..] == p[8..] + Http + rest;
      NormalizeStep(a);
      NormalizeStep(b);
      NormalizeIgnoresScheme(p[8..], rest);
    } else {
      assert a == p + (Https + rest) && b == p + (Http + rest);
      NoMatchAtFront(p, Https + rest);
      NoMatchAtFront(p, Http + rest);
      assert a[0] == b[0] == p[0];
      assert a[1..] == p[1..] + Https + rest;
      assert b[1..] == p[1..] + Http + rest;
      NormalizeStep(a);
      NormalizeStep(b);
      NormalizeIgnoresScheme(p[1..], rest);
    }
  }

  /** A non-empty prefix that does not itself start with "https://" cannot
      start a match when it is followed by text that begins with 'h'. */
  lemma NoMatchAtFront(p: string, t: string)
    requires p != [] && !StartsWith(p, Https)
    requires t != [] && t[0] == 'h'
    ensures !StartsWith(p + t, Https)
  {
    var s := p + t;
    if |p| < 8 {
      assert s[|p|] == 'h';
      HttpsTailHasNoH(|p|);
    }
  }
}

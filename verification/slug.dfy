/** URL slugs (src/utils/slug.ts): `slugify`, which turns a title into a
    lower-case, hyphen-separated ASCII slug of at most 90 characters, and
    `makeUniqueSlug`, which appends `-2`, `-3`, … until no other record holds
    the candidate. */
module Slug {
  import opened Wrappers
  import opened Text

  /** The longest slug `slugify` produces. */
  const MaxSlugLength := 90

  /** The slug used when a title has no letter or digit at all. */
  const FallbackSlug := "propiedad"

  // ---------------------------------------------------------------------
  // Slug text
  // ---------------------------------------------------------------------

  /** The characters `[a-z0-9]` that survive into a slug. */
  predicate IsSlugChar(c: char) { 'a' <= c <= 'z' || '0' <= c <= '9' }

  predicate SlugAlphabet(s: string) {
    forall i :: 0 <= i < |s| ==> IsSlugChar(s[i]) || s[i] == '-'
  }

  predicate NoDoubleHyphen(s: string) {
    forall i :: 0 <= i < |s| - 1 ==> s[i] != '-' || s[i + 1] != '-'
  }

  /** What every result of `slugify` looks like: letters, digits and single
      hyphens, never a hyphen first, at most 90 characters. */
  predicate IsSlug(s: string) {
    SlugAlphabet(s) && NoDoubleHyphen(s) && (s == [] || s[0] != '-') && |s| <= MaxSlugLength
  }

  /** The letters and digits of `s`, in order (hyphens and everything else dropped). */
  function SlugChars(s: string): (r: string)
    ensures |r| <= |s|
  {
    if s == [] then []
    else if IsSlugChar(s[0]) then [s[0]] + SlugChars(s[1..])
    else SlugChars(s[1..])
  }

  // ---------------------------------------------------------------------
  // The steps of slugify
  // ---------------------------------------------------------------------

  /** `replace(/&/g, " y ")`. */
  function ReplaceAmp(s: string): (r: string)
    ensures forall i :: 0 <= i < |r| ==> r[i] != '&'
  {
    if s == [] then []
    else (if s[0] == '&' then " y " else [s[0]]) + ReplaceAmp(s[1..])
  }

  /** `s` without its leading characters outside `[a-z0-9]`. */
  function SkipRun(s: string): (r: string)
    ensures r == [] || IsSlugChar(r[0])
    ensures |r| <= |s|
  {
    if s != [] && !IsSlugChar(s[0]) then SkipRun(s[1..]) else s
  }

  /** `replace(/[^a-z0-9]+/g, "-")`: every run of other characters becomes
      one hyphen. */
  function Collapse(s: string): (r: string)
    ensures SlugAlphabet(r) && NoDoubleHyphen(r)
    ensures (r != [] && r[0] == '-') <==> (s != [] && !IsSlugChar(s[0]))
    decreases |s|
  {
    if s == [] then []
    else if IsSlugChar(s[0]) then [s[0]] + Collapse(s[1..])
    else "-" + Collapse(SkipRun(s[1..]))
  }

  function DropLeadingHyphens(s: string): (r: string)
    ensures r == [] || r[0] != '-'
    ensures |r| <= |s| && r == s[|s| - |r|..]
  {
    if s != [] && s[0] == '-' then DropLeadingHyphens(s[1..]) else s
  }

  function DropTrailingHyphens(s: string): (r: string)
    ensures r == [] || r[|r| - 1] != '-'
    ensures |r| <= |s| && r == s[..|r|]
  {
    if s != [] && s[|s| - 1] == '-' then DropTrailingHyphens(s[..|s| - 1]) else s
  }

  /** A slice of slug text is slug text. */
  lemma SliceOfSlugText(s: string, i: int, j: int)
    requires 0 <= i <= j <= |s|
    requires SlugAlphabet(s) && NoDoubleHyphen(s)
    ensures SlugAlphabet(s[i..j]) && NoDoubleHyphen(s[i..j])
  {
    assert forall k :: 0 <= k < j - i ==> s[i..j][k] == s[i + k];
  }

  /** `replace(/^-+|-+$/g, "")`. */
  function TrimHyphens(s: string): (r: string)
    requires SlugAlphabet(s) && NoDoubleHyphen(s)
    ensures SlugAlphabet(r) && NoDoubleHyphen(r)
    ensures r == [] || (r[0] != '-' && r[|r| - 1] != '-')
  {
    var a := DropLeadingHyphens(s);
    SliceOfSlugText(s, |s| - |a|, |s|);
    var r := DropTrailingHyphens(a);
    SliceOfSlugText(a, 0, |r|);
    r
  }

  /** The text before the hyphen runs are collapsed: accents stripped,
      lower-cased, `&` spelt out. */
  function Prepared(input: string): string {
    ReplaceAmp(Lower(Unaccent(input)))
  }

  /** The slug before the length cut. */
  function Untruncated(input: string): (r: string)
    ensures SlugAlphabet(r) && NoDoubleHyphen(r)
    ensures r == [] || (r[0] != '-' && r[|r| - 1] != '-')
  {
    TrimHyphens(Collapse(Prepared(input)))
  }

  /** `slugify`. The result is a slug; it can end in a hyphen only when the
      cut at 90 characters fell just after one. */
  function Slugify(input: string): (r: string)
    ensures IsSlug(r)
    ensures |r| < MaxSlugLength ==> r == [] || r[|r| - 1] != '-'
  {
    var u := Untruncated(input);
    var r := if |u| <= MaxSlugLength then u else u[..MaxSlugLength];
    SliceOfSlugText(u, 0, |r|);
    r
  }

  // ---------------------------------------------------------------------
  // What slugify keeps
  // ---------------------------------------------------------------------

  lemma {:induction false} SlugCharsOfSkipRun(s: string)
    ensures SlugChars(SkipRun(s)) == SlugChars(s)
  {
    if s != [] && !IsSlugChar(s[0]) {
      SlugCharsOfSkipRun(s[1..]);
    }
  }

  /** Collapsing the separators keeps every letter and digit, in order. */
  lemma {:induction false} SlugCharsOfCollapse(s: string)
    ensures SlugChars(Collapse(s)) == SlugChars(s)
    decreases |s|
  {
    if s != [] {
      if IsSlugChar(s[0]) {
        SlugCharsOfCollapse(s[1..]);
        assert ([s[0]] + Collapse(s[1..]))[1..] == Collapse(s[1..]);
      } else {
        SlugCharsOfSkipRun(s[1..]);
        SlugCharsOfCollapse(SkipRun(s[1..]));
        assert ("-" + Collapse(SkipRun(s[1..])))[1..] == Collapse(SkipRun(s[1..]));
      }
    }
  }

  lemma {:induction false} SlugCharsOfAppend(a: string, b: string)
    ensures SlugChars(a + b) == SlugChars(a) + SlugChars(b)
  {
    if a != [] {
      SlugCharsOfAppend(a[1..], b);
      var ab := a + b;
      assert ab[0] == a[0];
      assert ab[1..] == a[1..] + b;
      if IsSlugChar(a[0]) {
        assert SlugChars(ab) == [a[0]] + SlugChars(a[1..] + b);
      } else {
        assert SlugChars(ab) == SlugChars(a[1..] + b);
      }
    } else {
      assert a + b == b;
    }
  }

  lemma {:induction false} SlugCharsOfDropLeading(s: string)
    ensures SlugChars(DropLeadingHyphens(s)) == SlugChars(s)
  {
    if s != [] && s[0] == '-' {
      SlugCharsOfDropLeading(s[1..]);
    }
  }

  lemma {:induction false} SlugCharsOfDropTrailing(s: string)
    ensures SlugChars(DropTrailingHyphens(s)) == SlugChars(s)
  {
    if s != [] && s[|s| - 1] == '-' {
      var init := s[..|s| - 1];
      SlugCharsOfDropTrailing(init);
      SlugCharsOfAppend(init, "-");
      assert init + "-" == s;
    }
  }

  /** Stripping the outer hyphens keeps every letter and digit. */
  lemma SlugCharsOfTrimHyphens(s: string)
    requires SlugAlphabet(s) && NoDoubleHyphen(s)
    ensures SlugChars(TrimHyphens(s)) == SlugChars(s)
  {
    SlugCharsOfDropLeading(s);
    SlugCharsOfDropTrailing(DropLeadingHyphens(s));
  }

  /** The slug holds letters and digits of the prepared title only, in
      order, and all of them when the title was short enough not to be cut. */
  lemma SlugifyContent(input: string)
    ensures exists rest :: SlugChars(Slugify(input)) + rest == SlugChars(Prepared(input))
    ensures |Untruncated(input)| <= MaxSlugLength ==> SlugChars(Slugify(input)) == SlugChars(Prepared(input))
  {
    var p := Prepared(input);
    var u := Untruncated(input);
    var r := Slugify(input);
    assert SlugChars(u) == SlugChars(p) by {
      SlugCharsOfCollapse(p);
      SlugCharsOfTrimHyphens(Collapse(p));
    }
    var rest := SlugChars(u[|r|..]);
    assert SlugChars(r) + rest == SlugChars(u) by {
      assert u == r + u[|r|..];
      SlugCharsOfAppend(r, u[|r|..]);
    }
    if |u| <= MaxSlugLength {
      assert r == u;
    }
  }

  // ---------------------------------------------------------------------
  // Where the hyphens go
  // ---------------------------------------------------------------------

  /** A maximal stretch of letters and digits: never empty. */
  predicate IsRun(w: string) {
    w != [] && forall i :: 0 <= i < |w| ==> IsSlugChar(w[i])
  }

  /** The letters and digits at the start of `s`, up to the first other
      character. */
  function LeadingRun(s: string): (r: string)
    ensures |r| <= |s| && r == s[..|r|]
    ensures forall i :: 0 <= i < |r| ==> IsSlugChar(r[i])
    ensures |r| < |s| ==> !IsSlugChar(s[|r|])
    ensures s != [] && IsSlugChar(s[0]) ==> r != []
  {
    if s != [] && IsSlugChar(s[0]) then [s[0]] + LeadingRun(s[1..]) else []
  }

  /** The maximal runs of `[a-z0-9]` in `s`, in order: what is left between
      the separator runs. */
  function Runs(s: string): (r: seq<string>)
    ensures forall k :: 0 <= k < |r| ==> IsRun(r[k])
    decreases |s|
  {
    var t := SkipRun(s);
    if t == [] then []
    else
      var w := LeadingRun(t);
      [w] + Runs(t[|w|..])
  }

  /** `s` ends in a character outside `[a-z0-9]`. */
  predicate EndsInSeparator(s: string) {
    s != [] && !IsSlugChar(s[|s| - 1])
  }

  /** Skipping the leading separators keeps the last character, and skipping
      them all means the text ended in one. */
  lemma {:induction false} SkipRunEnd(s: string)
    ensures SkipRun(s) != [] ==> (EndsInSeparator(SkipRun(s)) <==> EndsInSeparator(s))
    ensures SkipRun(s) == [] && s != [] ==> EndsInSeparator(s)
  {
    if s != [] && !IsSlugChar(s[0]) {
      SkipRunEnd(s[1..]);
    }
  }

  /** Collapsing keeps a leading run as it is. */
  lemma {:induction false} CollapseLeadingRun(t: string)
    ensures Collapse(t) == LeadingRun(t) + Collapse(t[|LeadingRun(t)|..])
    decreases |t|
  {
    if t != [] && IsSlugChar(t[0]) {
      var t1 := t[1..];
      var w1 := LeadingRun(t1);
      CollapseLeadingRun(t1);
      assert LeadingRun(t) == [t[0]] + w1;
      assert t1[|w1|..] == t[|w1| + 1..];
      assert Collapse(t) == [t[0]] + Collapse(t1);
    }
  }

  /** Text that starts with a separator collapses to one hyphen followed by
      what follows the separator run, and has the runs of that rest. */
  lemma FromSeparator(s: string)
    requires s != [] && !IsSlugChar(s[0])
    ensures |SkipRun(s)| < |s|
    ensures Collapse(s) == "-" + Collapse(SkipRun(s))
    ensures Runs(s) == Runs(SkipRun(s))
  {
    var u := SkipRun(s);
    assert u == SkipRun(s[1..]);
    assert SkipRun(u) == u;
  }

  /** Joining a run in front of at least one more run puts one hyphen
      between them. */
  lemma JoinCons(w: string, runs: seq<string>)
    requires runs != []
    ensures Join([w] + runs, "-") == w + "-" + Join(runs, "-")
  {
    assert ([w] + runs)[1..] == runs;
  }

  lemma ConcatAssoc(a: string, b: string, c: string, d: string)
    ensures a + b + c + d == a + (b + (c + d))
  {
  }

  /** A non-empty suffix ends as the whole text does. */
  lemma EndsInSeparatorSuffix(t: string, k: nat)
    requires k < |t|
    ensures EndsInSeparator(t[k..]) == EndsInSeparator(t)
  {
  }

  /** The collapsed form of a text: its runs joined by single hyphens, and
      one hyphen more when it ends in a separator. */
  predicate CollapsesToRuns(t: string) {
    Collapse(t) == Join(Runs(t), "-") + (if EndsInSeparator(t) then "-" else "")
  }

  /** A text made of one run collapses to itself. */
  lemma OneRun(t: string)
    requires t != [] && IsSlugChar(t[0]) && |LeadingRun(t)| == |t|
    ensures CollapsesToRuns(t)
  {
    var w := LeadingRun(t);
    assert t == w;
    assert SkipRun(t) == t;
    assert t[|w|..] == [];
    assert Runs(t) == [w];
    CollapseLeadingRun(t);
    assert Collapse(t) == w;
  }

  /** The runs of a text that starts with a run: that run, then the runs
      after the separator run that follows it. */
  lemma RunsAfterRun(t: string)
    requires t != [] && IsSlugChar(t[0]) && |LeadingRun(t)| < |t|
    ensures Runs(t) == [LeadingRun(t)] + Runs(SkipRun(t[|LeadingRun(t)|..]))
  {
    assert SkipRun(t) == t;
    FromSeparator(t[|LeadingRun(t)|..]);
  }

  /** Collapsing a run followed by a separator run keeps the run and puts one
      hyphen after it. */
  lemma CollapseAfterRun(t: string)
    requires t != [] && IsSlugChar(t[0]) && |LeadingRun(t)| < |t|
    ensures Collapse(t) == LeadingRun(t) + ("-" + Collapse(SkipRun(t[|LeadingRun(t)|..])))
  {
    CollapseLeadingRun(t);
    FromSeparator(t[|LeadingRun(t)|..]);
  }

  lemma EndAfterRun(t: string)
    requires t != [] && IsSlugChar(t[0]) && |LeadingRun(t)| < |t|
    ensures var u := SkipRun(t[|LeadingRun(t)|..]);
            EndsInSeparator(t) == (u == [] || EndsInSeparator(u))
  {
    SkipRunEnd(t[|LeadingRun(t)|..]);
    EndsInSeparatorSuffix(t, |LeadingRun(t)|);
  }

  /** A run followed by a separator run: one hyphen, then whatever the rest
      collapses to. */
  lemma RunThenSeparator(t: string)
    requires t != [] && IsSlugChar(t[0]) && |LeadingRun(t)| < |t|
    requires CollapsesToRuns(SkipRun(t[|LeadingRun(t)|..]))
    ensures CollapsesToRuns(t)
  {
    var w := LeadingRun(t);
    var u := SkipRun(t[|w|..]);
    RunsAfterRun(t);
    CollapseAfterRun(t);
    EndAfterRun(t);
    if u == [] {
      LastRun(t, w, u);
    } else {
      MoreRuns(t, w, u);
    }
  }

  /** The case of `RunThenSeparator` where nothing but separators follows. */
  lemma LastRun(t: string, w: string, u: string)
    requires u == []
    requires Runs(t) == [w] + Runs(u)
    requires Collapse(t) == w + ("-" + Collapse(u))
    requires EndsInSeparator(t)
    ensures CollapsesToRuns(t)
  {
    assert Runs(u) == [] && Collapse(u) == [];
    assert Runs(t) == [w];
  }

  /** The case of `RunThenSeparator` where more runs follow. */
  lemma MoreRuns(t: string, w: string, u: string)
    requires u != [] && IsSlugChar(u[0]) && CollapsesToRuns(u)
    requires Runs(t) == [w] + Runs(u)
    requires Collapse(t) == w + ("-" + Collapse(u))
    requires EndsInSeparator(t) == EndsInSeparator(u)
    ensures CollapsesToRuns(t)
  {
    var tail := if EndsInSeparator(u) then "-" else "";
    assert Runs(u) != [] by {
      assert SkipRun(u) == u;
    }
    JoinCons(w, Runs(u));
    ConcatAssoc(w, "-", Join(Runs(u), "-"), tail);
  }

  /** Collapsing text that starts with a letter or digit gives its runs
      joined by single hyphens, followed by one hyphen when the text ends in
      a separator. */
  lemma {:induction false} CollapseOfRunStart(t: string)
    requires t == [] || IsSlugChar(t[0])
    ensures CollapsesToRuns(t)
    decreases |t|
  {
    if t != [] {
      var w := LeadingRun(t);
      if |w| == |t| {
        OneRun(t);
      } else {
        var rest := t[|w|..];
        FromSeparator(rest);
        CollapseOfRunStart(SkipRun(rest));
        RunThenSeparator(t);
      }
    }
  }

  /** Runs joined by hyphens neither start nor end with a hyphen. */
  lemma {:induction false} JoinRunsEnds(runs: seq<string>)
    requires forall k :: 0 <= k < |runs| ==> IsRun(runs[k])
    ensures var j := Join(runs, "-"); j == [] || (j[0] != '-' && j[|j| - 1] != '-')
  {
    if |runs| > 1 {
      JoinRunsEnds(runs[1..]);
    }
  }

  /** An optional hyphen in front of text that does not start with one is
      all the leading trim removes. */
  lemma DropLeadingOptional(c: string, a: string, lead: bool)
    requires a == [] || a[0] != '-'
    requires c == (if lead then "-" else "") + a
    ensures DropLeadingHyphens(c) == a
  {
    if lead {
      assert c[1..] == a;
    } else {
      assert c == a;
    }
  }

  /** An optional hyphen after text that does not end with one is all the
      trailing trim removes. */
  lemma DropTrailingOptional(a: string, j: string, ends: bool)
    requires j == [] || j[|j| - 1] != '-'
    requires a == j + (if ends then "-" else "")
    ensures DropTrailingHyphens(a) == j
  {
    if ends {
      assert a[..|j|] == j;
    } else {
      assert a == j;
    }
  }

  /** Trimming the outer hyphens from text with at most one hyphen on either
      side of a hyphen-free-ended core gives that core back. */
  lemma TrimOneHyphenEach(c: string, j: string, lead: bool, ends: bool)
    requires j == [] || (j[0] != '-' && j[|j| - 1] != '-')
    requires j != [] || !ends
    requires c == (if lead then "-" else "") + (j + (if ends then "-" else ""))
    requires SlugAlphabet(c) && NoDoubleHyphen(c)
    ensures TrimHyphens(c) == j
  {
    var a := j + (if ends then "-" else "");
    DropLeadingOptional(c, a, lead);
    DropTrailingOptional(a, j, ends);
  }

  /** Collapsing the separator runs and trimming the outer hyphens leaves
      exactly the runs of letters and digits, joined by single hyphens. */
  lemma CollapseRuns(s: string)
    ensures TrimHyphens(Collapse(s)) == Join(Runs(s), "-")
  {
    var t := SkipRun(s);
    var lead := s != [] && !IsSlugChar(s[0]);
    if lead {
      FromSeparator(s);
    } else {
      assert t == s;
    }
    CollapseOfRunStart(t);
    JoinRunsEnds(Runs(t));
    var j := Join(Runs(t), "-");
    var tail := if EndsInSeparator(t) then "-" else "";
    assert Collapse(s) == (if lead then "-" else "") + (j + tail);
    assert t != [] ==> Runs(t) != [] by {
      assert SkipRun(t) == t;
    }
    TrimOneHyphenEach(Collapse(s), j, lead, EndsInSeparator(t));
  }

  /** `slugify` in full: the runs of letters and digits of the prepared
      input, joined by single hyphens, cut at 90 characters. */
  lemma SlugifyRuns(input: string)
    ensures var j := Join(Runs(Prepared(input)), "-");
            Slugify(input) == if |j| <= MaxSlugLength then j else j[..MaxSlugLength]
  {
    CollapseRuns(Prepared(input));
  }

  // ---------------------------------------------------------------------
  // Slugs are fixed points
  // ---------------------------------------------------------------------

  lemma {:induction false} UnaccentOfSlugText(s: string)
    requires SlugAlphabet(s)
    ensures Unaccent(s) == s
  {
    if s != [] {
      assert SlugAlphabet(s[1..]) by {
        assert forall i :: 0 <= i < |s[1..]| ==> s[1..][i] == s[i + 1];
      }
      UnaccentOfSlugText(s[1..]);
      assert !IsCombiningMark(s[0]) && BaseLetter(s[0]) == s[0];
      assert Unaccent(s) == [s[0]] + Unaccent(s[1..]);
      assert [s[0]] + s[1..] == s;
    }
  }

  lemma {:induction false} ReplaceAmpOfSlugText(s: string)
    requires SlugAlphabet(s)
    ensures ReplaceAmp(s) == s
  {
    if s != [] {
      assert SlugAlphabet(s[1..]) by {
        assert forall i :: 0 <= i < |s[1..]| ==> s[1..][i] == s[i + 1];
      }
      ReplaceAmpOfSlugText(s[1..]);
      assert [s[0]] + s[1..] == s;
    }
  }

  lemma LowerOfSlugText(s: string)
    requires SlugAlphabet(s)
    ensures Lower(s) == s
  {
    assert forall i :: 0 <= i < |s| ==> LowerChar(s[i]) == s[i];
  }

  /** Slug text without a doubled hyphen has nothing left to collapse. */
  lemma {:induction false} CollapseOfSlugText(s: string)
    requires SlugAlphabet(s) && NoDoubleHyphen(s)
    ensures Collapse(s) == s
    decreases |s|
  {
    if s != [] {
      var t := s[1..];
      assert forall i :: 0 <= i < |t| ==> t[i] == s[i + 1];
      assert SlugAlphabet(t) && NoDoubleHyphen(t);
      if IsSlugChar(s[0]) {
        CollapseOfSlugText(t);
      } else {
        assert t == [] || IsSlugChar(t[0]);
        assert SkipRun(t) == t;
        CollapseOfSlugText(t);
      }
      assert [s[0]] + t == s;
    }
  }

  /** A slug that does not end in a hyphen is its own slug. */
  lemma SlugifyOfSlug(s: string)
    requires IsSlug(s) && (s == [] || s[|s| - 1] != '-')
    ensures Slugify(s) == s
  {
    UnaccentOfSlugText(s);
    LowerOfSlugText(s);
    ReplaceAmpOfSlugText(s);
    assert Prepared(s) == s;
    CollapseOfSlugText(s);
    TrimHyphensOfSlug(s);
    assert Untruncated(s) == s;
  }

  /** Slug text that neither starts nor ends with a hyphen has no hyphen to trim. */
  lemma TrimHyphensOfSlug(s: string)
    requires SlugAlphabet(s) && NoDoubleHyphen(s)
    requires s == [] || (s[0] != '-' && s[|s| - 1] != '-')
    ensures TrimHyphens(s) == s
  {
    assert DropLeadingHyphens(s) == s;
    assert DropTrailingHyphens(s) == s;
  }

  /** `slugify` is idempotent except on a slug the 90-character cut left
      ending in a hyphen. */
  lemma SlugifyIdempotent(input: string)
    requires |Slugify(input)| < MaxSlugLength || Slugify(input)[|Slugify(input)| - 1] != '-'
    ensures Slugify(Slugify(input)) == Slugify(input)
  {
    SlugifyOfSlug(Slugify(input));
  }

  // ---------------------------------------------------------------------
  // makeUniqueSlug
  // ---------------------------------------------------------------------

  /** `slugify(title) || "propiedad"`: never empty. */
  function SlugBase(title: string): (r: string)
    ensures r != [] && SlugAlphabet(r) && NoDoubleHyphen(r) && r[0] != '-'
    ensures Slugify(title) != [] ==> r == Slugify(title)
  {
    var s := Slugify(title);
    if s == [] then
      FallbackIsSlugText();
      FallbackSlug
    else s
  }

  lemma FallbackIsSlugText()
    ensures FallbackSlug != [] && SlugAlphabet(FallbackSlug) && NoDoubleHyphen(FallbackSlug) && FallbackSlug[0] != '-'
  {
  }

  /** The `n`-th candidate: the base itself, then `base-2`, `base-3`, … */
  function Candidate(base: string, n: nat): (r: string)
    requires n >= 1
    ensures |r| >= |base| && r[..|base|] == base
    ensures n >= 2 ==> |r| >= |base| + 2 && r[|base|] == '-'
  {
    if n == 1 then base else base + "-" + NatToString(n)
  }

  /** Different numbers give different candidates. */
  lemma CandidateInjective(base: string, m: nat, n: nat)
    requires m >= 1 && n >= 1 && Candidate(base, m) == Candidate(base, n)
    ensures m == n
  {
    if m >= 2 && n >= 2 {
      var cm, cn := Candidate(base, m), Candidate(base, n);
      assert cm[|base| + 1..] == NatToString(m);
      assert cn[|base| + 1..] == NatToString(n);
      NatToStringInjective(m, n);
    }
  }

  /** `Model.exists(...)`: some record other than `exclude` holds the slug. */
  predicate Taken<Id>(held: map<Id, string>, slug: string, exclude: Option<Id>) {
    exists id :: id in held && held[id] == slug && exclude != Some(id)
  }

  /** `n` is the first candidate number whose candidate is free. */
  predicate FirstFree<Id>(held: map<Id, string>, base: string, exclude: Option<Id>, n: nat) {
    n >= 1 && !Taken(held, Candidate(base, n), exclude)
    && forall m :: 1 <= m < n ==> Taken(held, Candidate(base, m), exclude)
  }

  /** When the first `n` candidates are all taken, at least `n` records exist. */
  lemma {:induction false} TakenCandidatesBound<Id>(held: map<Id, string>, base: string, exclude: Option<Id>, n: nat)
    requires forall m :: 1 <= m <= n ==> Taken(held, Candidate(base, m), exclude)
    ensures n <= |held|
  {
    if n >= 1 {
      assert Taken(held, Candidate(base, n), exclude);
      var id :| id in held && held[id] == Candidate(base, n) && exclude != Some(id);
      var rest := held - {id};
      assert rest.Keys == held.Keys - {id};
      assert |rest| == |held| - 1;
      forall m | 1 <= m <= n - 1
        ensures Taken(rest, Candidate(base, m), exclude)
      {
        var other :| other in held && held[other] == Candidate(base, m) && exclude != Some(other);
        if other == id {
          CandidateInjective(base, m, n);
        }
        assert other in rest && rest[other] == Candidate(base, m);
      }
      TakenCandidatesBound(rest, base, exclude, n - 1);
    }
  }

  /** The first free candidate is unique. */
  lemma FirstFreeUnique<Id>(held: map<Id, string>, base: string, exclude: Option<Id>, m: nat, n: nat)
    requires FirstFree(held, base, exclude, m) && FirstFree(held, base, exclude, n)
    ensures m == n
  {
  }

  /** `slug` is the first free candidate for `title`. */
  ghost predicate IsUniqueSlug<Id>(held: map<Id, string>, title: string, exclude: Option<Id>, slug: string) {
    exists n :: FirstFree(held, SlugBase(title), exclude, n) && slug == Candidate(SlugBase(title), n)
  }

  /** The store and the title decide the slug: there is only one first free
      candidate. */
  lemma UniqueSlugDetermined<Id>(held: map<Id, string>, title: string, exclude: Option<Id>, s1: string, s2: string)
    requires IsUniqueSlug(held, title, exclude, s1) && IsUniqueSlug(held, title, exclude, s2)
    ensures s1 == s2
  {
    var m :| FirstFree(held, SlugBase(title), exclude, m) && s1 == Candidate(SlugBase(title), m);
    var n :| FirstFree(held, SlugBase(title), exclude, n) && s2 == Candidate(SlugBase(title), n);
    FirstFreeUnique(held, SlugBase(title), exclude, m, n);
  }

  /** A record whose slug is the base of its title, held by no other record,
      keeps that slug when it is the one excluded. */
  lemma OwnSlugKept<Id>(held: map<Id, string>, title: string, id: Id)
    requires id in held && held[id] == SlugBase(title)
    requires forall other :: other in held && other != id ==> held[other] != SlugBase(title)
    ensures IsUniqueSlug(held, title, Some(id), SlugBase(title))
  {
    assert FirstFree(held, SlugBase(title), Some(id), 1);
  }

  /** `makeUniqueSlug`: tries `base`, `base-2`, `base-3`, … against the slugs
      `held` by the stored records (ignoring the record `exclude`, the one
      being updated) and returns the first that is free. */
  method MakeUniqueSlug<Id>(held: map<Id, string>, title: string, exclude: Option<Id>) returns (slug: string)
    ensures IsUniqueSlug(held, title, exclude, slug)
    ensures !Taken(held, slug, exclude)
  {
    var base := SlugBase(title);
    var n: nat := 1;
    slug := base;
    while Taken(held, slug, exclude)
      invariant n >= 1 && slug == Candidate(base, n)
      invariant forall m :: 1 <= m < n ==> Taken(held, Candidate(base, m), exclude)
      decreases |held| + 1 - n
    {
      TakenCandidatesBound(held, base, exclude, n);
      n := n + 1;
      slug := base + "-" + NatToString(n);
    }
    assert FirstFree(held, base, exclude, n);
  }

  /** `&` becomes the word "y". */
  lemma SlugifyAmpersand()
    ensures Slugify("a&b") == "a-y-b"
  {
    PreparedAmpersand();
    CollapseOfSpelledAmpersand();
    assert TrimHyphens("a-y-b") == "a-y-b";
  }

  lemma PreparedAmpersand()
    ensures Prepared("a&b") == "a y b"
  {
    assert Unaccent("a&b") == "a&b";
    assert Lower("a&b") == "a&b";
  }

  lemma CollapseOfSpelledAmpersand()
    ensures Collapse("a y b") == "a-y-b"
  {
    assert Collapse("b") == "b";
    assert Collapse("y b") == "y-b";
  }
}

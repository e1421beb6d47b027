/** Character classes, case mapping, trimming, splitting and decimal
    rendering/parsing shared by every module of the model. Strings are
    sequences of Unicode scalar values; only the part of JavaScript's string
    library that the listing code relies on is modelled. */
module Text {

  // ---------------------------------------------------------------------
  // Character classes
  // ---------------------------------------------------------------------

  /** The characters JavaScript's `trim` and the `\s` class treat as white
      space: tab to carriage return, space, no-break space, the Unicode space
      separators, the line and paragraph separators and the byte-order mark. */
  predicate IsSpace(c: char) {
    c == ' ' || '\t' <= c <= '\r' || c == '\U{00A0}' || c == '\U{1680}'
    || '\U{2000}' <= c <= '\U{200A}' || c == '\U{2028}' || c == '\U{2029}'
    || c == '\U{202F}' || c == '\U{205F}' || c == '\U{3000}' || c == '\U{FEFF}'
  }

  predicate IsDigit(c: char) { '0' <= c <= '9' }

  /** Letters and digits of the ASCII range (the model's reading of `\p{Letter}` and `\p{Number}`). */
  predicate IsAlnum(c: char) { 'a' <= c <= 'z' || 'A' <= c <= 'Z' || IsDigit(c) }

  predicate AllDigits(s: string) { forall i :: 0 <= i < |s| ==> IsDigit(s[i]) }

  // ---------------------------------------------------------------------
  // Case mapping and accent stripping
  // ---------------------------------------------------------------------

  /** The upper-case letters of ASCII and Latin-1. */
  predicate IsUpperCase(c: char) {
    'A' <= c <= 'Z' || ('\U{00C0}' <= c <= '\U{00DE}' && c != '\U{00D7}')
  }

  /** `toLowerCase` on one character, for ASCII and the Latin-1 upper-case letters. */
  function LowerChar(c: char): char {
    if IsUpperCase(c)
    then (c as int + 32) as char
    else c
  }

  function Lower(s: string): (r: string)
    ensures |r| == |s|
    ensures forall i :: 0 <= i < |s| ==> r[i] == LowerChar(s[i])
  {
    seq(|s|, i requires 0 <= i < |s| => LowerChar(s[i]))
  }

  /** The combining diacritical marks, U+0300 to U+036F. */
  predicate IsCombiningMark(c: char) { '\U{0300}' <= c <= '\U{036F}' }

  /** The base letter of a precomposed Latin-1 letter after canonical
      decomposition (NFD); other characters are their own base. */
  function BaseLetter(c: char): char {
    if '\U{00C0}' <= c <= '\U{00C5}' then 'A'
    else if c == '\U{00C7}' then 'C'
    else if '\U{00C8}' <= c <= '\U{00CB}' then 'E'
    else if '\U{00CC}' <= c <= '\U{00CF}' then 'I'
    else if c == '\U{00D1}' then 'N'
    else if '\U{00D2}' <= c <= '\U{00D6}' then 'O'
    else if '\U{00D9}' <= c <= '\U{00DC}' then 'U'
    else if c == '\U{00DD}' then 'Y'
    else if '\U{00E0}' <= c <= '\U{00E5}' then 'a'
    else if c == '\U{00E7}' then 'c'
    else if '\U{00E8}' <= c <= '\U{00EB}' then 'e'
    else if '\U{00EC}' <= c <= '\U{00EF}' then 'i'
    else if c == '\U{00F1}' then 'n'
    else if '\U{00F2}' <= c <= '\U{00F6}' then 'o'
    else if '\U{00F9}' <= c <= '\U{00FC}' then 'u'
    else if c == '\U{00FD}' || c == '\U{00FF}' then 'y'
    else c
  }

  /** `normalize("NFD")` followed by removal of the combining marks. */
  function Unaccent(s: string): (r: string)
    ensures |r| <= |s|
    ensures forall i :: 0 <= i < |r| ==> !IsCombiningMark(r[i])
  {
    if s == [] then []
    else if IsCombiningMark(s[0]) then Unaccent(s[1..])
    else [BaseLetter(s[0])] + Unaccent(s[1..])
  }

  // ---------------------------------------------------------------------
  // Trimming
  // ---------------------------------------------------------------------

  /** Neither end of `s` is white space. */
  predicate Trimmed(s: string) {
    s == [] || (!IsSpace(s[0]) && !IsSpace(s[|s| - 1]))
  }

  function TrimStart(s: string): (r: string)
    ensures r == [] || !IsSpace(r[0])
    ensures |r| <= |s|
  {
    if s != [] && IsSpace(s[0]) then TrimStart(s[1..]) else s
  }

  function TrimEnd(s: string): (r: string)
    ensures r == [] || !IsSpace(r[|r| - 1])
    ensures |r| <= |s|
    ensures r != [] ==> r[0] == s[0]
  {
    if s != [] && IsSpace(s[|s| - 1]) then TrimEnd(s[..|s| - 1]) else s
  }

  /** `TrimStart` keeps a suffix of its input. */
  lemma {:induction false} TrimStartSuffix(s: string)
    ensures TrimStart(s) == s[|s| - |TrimStart(s)|..]
  {
    if s != [] && IsSpace(s[0]) {
      TrimStartSuffix(s[1..]);
    }
  }

  /** `TrimEnd` keeps a prefix of its input. */
  lemma {:induction false} TrimEndPrefix(s: string)
    ensures TrimEnd(s) == s[..|TrimEnd(s)|]
  {
    if s != [] && IsSpace(s[|s| - 1]) {
      TrimEndPrefix(s[..|s| - 1]);
    }
  }

  predicate AllSpace(t: string) { forall k :: 0 <= k < |t| ==> IsSpace(t[k]) }

  /** What `TrimStart` drops is white space. */
  lemma {:induction false} TrimStartSpaces(s: string)
    ensures |TrimStart(s)| <= |s| && AllSpace(s[..|s| - |TrimStart(s)|])
  {
    if s != [] && IsSpace(s[0]) {
      TrimStartSpaces(s[1..]);
      assert s[..|s| - |TrimStart(s)|] == [s[0]] + s[1..][..|s[1..]| - |TrimStart(s[1..])|];
    }
  }

  /** What `TrimEnd` drops is white space. */
  lemma {:induction false} TrimEndSpaces(s: string)
    ensures |TrimEnd(s)| <= |s| && AllSpace(s[|TrimEnd(s)|..])
  {
    if s != [] && IsSpace(s[|s| - 1]) {
      var u := s[..|s| - 1];
      TrimEndSpaces(u);
      assert s[|TrimEnd(s)|..] == u[|TrimEnd(u)|..] + [s[|s| - 1]];
    }
  }

  /** How many characters `TrimStart` drops from `s`. */
  function LeadingSpaces(s: string): (n: nat)
    ensures n <= |s|
  {
    |s| - |TrimStart(s)|
  }

  /** `String.prototype.trim`: the result is a slice of the input with only
      white space before and after it, and it neither starts nor ends with
      white space; so exactly the surrounding white space is removed. */
  function Trim(s: string): (r: string)
    ensures Trimmed(r)
    ensures |r| <= |s|
    ensures LeadingSpaces(s) + |r| <= |s| && r == s[LeadingSpaces(s)..LeadingSpaces(s) + |r|]
    ensures AllSpace(s[..LeadingSpaces(s)]) && AllSpace(s[LeadingSpaces(s) + |r|..])
  {
    var t := TrimStart(s);
    TrimStartSuffix(s);
    TrimStartSpaces(s);
    TrimEndPrefix(t);
    TrimEndSpaces(t);
    var r := TrimEnd(t);
    var i := |s| - |t|;
    assert r == s[i..i + |r|];
    assert s[i + |r|..] == t[|r|..];
    r
  }

  lemma TrimOfTrimmed(s: string)
    requires Trimmed(s)
    ensures Trim(s) == s
  {
  }

  /** Trimming twice changes nothing more. */
  lemma TrimIdempotent(s: string)
    ensures Trim(Trim(s)) == Trim(s)
  {
    TrimOfTrimmed(Trim(s));
  }

  /** The lower-cased, trimmed form used as a case-insensitive key. */
  function Key(s: string): (k: string)
    ensures |k| == |Trim(s)|
  {
    Lower(Trim(s))
  }

  // ---------------------------------------------------------------------
  // Splitting and joining
  // ---------------------------------------------------------------------

  predicate NoneIn(s: string, seps: set<char>) {
    forall i :: 0 <= i < |s| ==> s[i] !in seps
  }

  /** Two pieces free of the separators make a whole free of them. */
  lemma NoneInConcat(a: string, b: string, seps: set<char>)
    requires NoneIn(a, seps) && NoneIn(b, seps)
    ensures NoneIn(a + b, seps)
  {
    assert forall i :: 0 <= i < |a + b| ==> (a + b)[i] == if i < |a| then a[i] else b[i - |a|];
  }

  /** `s.split(...)` on every character of `seps`: the pieces between
      separators, empty ones included. */
  function Split(s: string, seps: set<char>): (r: seq<string>)
    ensures |r| >= 1
    ensures forall k :: 0 <= k < |r| ==> NoneIn(r[k], seps)
  {
    if s == [] then [""]
    else
      var rest := Split(s[1..], seps);
      if s[0] in seps then [""] + rest
      else [[s[0]] + rest[0]] + rest[1..]
  }

  /** `pieces.join(sep)`. */
  function Join(pieces: seq<string>, sep: string): string {
    if |pieces| == 0 then ""
    else if |pieces| == 1 then pieces[0]
    else pieces[0] + sep + Join(pieces[1..], sep)
  }

  /** Splitting on one character and joining with it gives the input back. */
  lemma {:induction false} SplitJoin(s: string, d: char)
    ensures Join(Split(s, {d}), [d]) == s
  {
    if s != [] {
      var rest := Split(s[1..], {d});
      SplitJoin(s[1..], d);
      if s[0] == d {
        assert Split(s, {d}) == [""] + rest;
        assert ([""] + rest)[1..] == rest;
      } else if |rest| == 1 {
        assert Split(s, {d}) == [[s[0]] + rest[0]];
      } else {
        assert Split(s, {d}) == [[s[0]] + rest[0]] + rest[1..];
        assert ([[s[0]] + rest[0]] + rest[1..])[1..] == rest[1..];
      }
    }
  }

  /** Splitting text with no separator in it gives that text back whole. */
  lemma {:induction false} SplitNoSeparator(a: string, seps: set<char>)
    requires NoneIn(a, seps)
    ensures Split(a, seps) == [a]
  {
    if a != [] {
      assert forall i :: 0 <= i < |a[1..]| ==> a[1..][i] == a[i + 1];
      SplitNoSeparator(a[1..], seps);
      assert [a[0]] + a[1..] == a;
    }
  }

  /** A separator after separator-free text closes the first piece. */
  lemma {:induction false} SplitAfterPiece(a: string, c: char, b: string, seps: set<char>)
    requires NoneIn(a, seps) && c in seps
    ensures Split(a + [c] + b, seps) == [a] + Split(b, seps)
  {
    if a == [] {
      assert ([c] + b)[1..] == b;
    } else {
      assert forall i :: 0 <= i < |a[1..]| ==> a[1..][i] == a[i + 1];
      SplitAfterPiece(a[1..], c, b, seps);
      assert (a + [c] + b)[1..] == a[1..] + [c] + b;
      assert [a[0]] + a[1..] == a;
    }
  }

  /** Splitting a list joined with one of the separators, whose items hold
      no separator, gives the items back. */
  lemma {:induction false} SplitOfJoin(items: seq<string>, d: char, seps: set<char>)
    requires |items| >= 1 && d in seps
    requires forall k :: 0 <= k < |items| ==> NoneIn(items[k], seps)
    ensures Split(Join(items, [d]), seps) == items
  {
    if |items| == 1 {
      SplitNoSeparator(items[0], seps);
    } else {
      SplitOfJoin(items[1..], d, seps);
      SplitAfterPiece(items[0], d, Join(items[1..], [d]), seps);
    }
  }

  // ---------------------------------------------------------------------
  // Trimmed, non-empty pieces
  // ---------------------------------------------------------------------

  /** The trimmed pieces that are not empty, in order (`map(trim).filter(Boolean)`). */
  function NonEmptyTrimmed(pieces: seq<string>): (r: seq<string>)
  {
    if pieces == [] then []
    else
      var init := NonEmptyTrimmed(pieces[..|pieces| - 1]);
      var last := Trim(pieces[|pieces| - 1]);
      if last == "" then init else init + [last]
  }

  /** Every piece trimmed (`map(s => s.trim())`). */
  function TrimAll(pieces: seq<string>): (r: seq<string>)
    ensures |r| == |pieces|
    ensures forall k :: 0 <= k < |pieces| ==> r[k] == Trim(pieces[k])
  {
    seq(|pieces|, k requires 0 <= k < |pieces| => Trim(pieces[k]))
  }

  /** Each kept entry is trimmed, not empty, and free of the separators the
      pieces were split on. */
  lemma {:induction false} NonEmptyTrimmedShape(pieces: seq<string>, seps: set<char>)
    requires forall k :: 0 <= k < |pieces| ==> NoneIn(pieces[k], seps)
    ensures forall x :: x in NonEmptyTrimmed(pieces) ==> x != "" && Trimmed(x) && NoneIn(x, seps)
  {
    if pieces != [] {
      var init := pieces[..|pieces| - 1];
      assert forall k :: 0 <= k < |init| ==> init[k] == pieces[k];
      NonEmptyTrimmedShape(init, seps);
      TrimInfix(pieces[|pieces| - 1], seps);
    }
  }

  /** The kept entries are trimmed pieces, in their order. */
  lemma {:induction false} NonEmptyTrimmedOrder(pieces: seq<string>)
    ensures IsSubsequence(NonEmptyTrimmed(pieces), TrimAll(pieces))
  {
    if pieces != [] {
      var n := |pieces|;
      var init := pieces[..n - 1];
      NonEmptyTrimmedOrder(init);
      var all := TrimAll(pieces);
      assert all[..n - 1] == TrimAll(init);
      var kept := NonEmptyTrimmed(pieces);
      if Trim(pieces[n - 1]) != "" {
        assert kept[..|kept| - 1] == NonEmptyTrimmed(init);
      }
    }
  }

  /** One more piece adds its trimmed form unless that is empty. */
  lemma NonEmptyTrimmedSnoc(pieces: seq<string>)
    requires pieces != []
    ensures NonEmptyTrimmed(pieces)
            == NonEmptyTrimmed(pieces[..|pieces| - 1])
               + (if Trim(pieces[|pieces| - 1]) == "" then [] else [Trim(pieces[|pieces| - 1])])
  {
  }

  /** A non-blank piece is kept, trimmed. */
  lemma {:induction false} NonEmptyTrimmedKeeps(pieces: seq<string>, k: nat)
    requires k < |pieces| && Trim(pieces[k]) != ""
    ensures Trim(pieces[k]) in NonEmptyTrimmed(pieces)
  {
    var init := pieces[..|pieces| - 1];
    NonEmptyTrimmedSnoc(pieces);
    if k < |init| {
      assert init[k] == pieces[k];
      NonEmptyTrimmedKeeps(init, k);
    }
  }

  /** Every non-blank piece is kept, trimmed. */
  lemma NonEmptyTrimmedComplete(pieces: seq<string>)
    ensures forall k :: 0 <= k < |pieces| && Trim(pieces[k]) != "" ==> Trim(pieces[k]) in NonEmptyTrimmed(pieces)
  {
    forall k | 0 <= k < |pieces| && Trim(pieces[k]) != "" {
      NonEmptyTrimmedKeeps(pieces, k);
    }
  }

  /** A slice of separator-free text is separator-free. */
  lemma NoneInSlice(s: string, i: nat, j: nat, seps: set<char>)
    requires i <= j <= |s| && NoneIn(s, seps)
    ensures NoneIn(s[i..j], seps)
  {
    assert forall k :: 0 <= k < j - i ==> s[i..j][k] == s[i + k];
  }

  /** Trimming keeps only characters of the input. */
  lemma TrimInfix(s: string, seps: set<char>)
    requires NoneIn(s, seps)
    ensures NoneIn(Trim(s), seps)
  {
    var t := TrimStart(s);
    TrimStartSuffix(s);
    NoneInSlice(s, |s| - |t|, |s|, seps);
    var r := TrimEnd(t);
    TrimEndPrefix(t);
    NoneInSlice(t, 0, |r|, seps);
  }

  /** Items that are already trimmed and not empty pass the filter unchanged. */
  lemma {:induction false} NonEmptyTrimmedOfClean(items: seq<string>)
    requires forall k :: 0 <= k < |items| ==> items[k] != "" && Trimmed(items[k])
    ensures NonEmptyTrimmed(items) == items
  {
    if items != [] {
      var init, last := items[..|items| - 1], items[|items| - 1];
      assert forall k :: 0 <= k < |init| ==> init[k] == items[k];
      NonEmptyTrimmedOfClean(init);
      TrimOfTrimmed(last);
      NonEmptyTrimmedSnoc(items);
      assert init + [last] == items;
    }
  }

  // ---------------------------------------------------------------------
  // Substrings
  // ---------------------------------------------------------------------

  /** `s.includes(sub)`. */
  predicate Contains(s: string, sub: string) {
    exists i | 0 <= i <= |s| - |sub| :: StartsWith(s[i..], sub)
  }

  /** `s.endsWith(suffix)`. */
  predicate EndsWith(s: string, suffix: string) {
    |suffix| <= |s| && s[|s| - |suffix|..] == suffix
  }

  predicate StartsWith(s: string, prefix: string) {
    |prefix| <= |s| && s[..|prefix|] == prefix
  }

  /** A text starts with its first part, and what follows it is the rest. */
  lemma StartsWithConcat(a: string, b: string)
    ensures StartsWith(a + b, a) && (a + b)[|a|..] == b
  {
    assert (a + b)[..|a|] == a;
  }

  /** The text up to the first `c`. */
  function TakeUntil(s: string, c: char): (r: string)
    ensures |r| <= |s| && r == s[..|r|] && NoneIn(r, {c})
    ensures |r| < |s| ==> s[|r|] == c
  {
    if s == [] || s[0] == c then [] else [s[0]] + TakeUntil(s[1..], c)
  }

  /** Text free of `c`, followed by `c` or by nothing, is read whole. */
  lemma {:induction false} TakeUntilOf(v: string, c: char, rest: string)
    requires NoneIn(v, {c})
    requires rest == [] || rest[0] == c
    ensures TakeUntil(v + rest, c) == v
  {
    if v != [] {
      assert (v + rest)[1..] == v[1..] + rest;
      assert forall i :: 0 <= i < |v[1..]| ==> v[1..][i] == v[i + 1];
      TakeUntilOf(v[1..], c, rest);
    }
  }

  // ---------------------------------------------------------------------
  // Integers
  // ---------------------------------------------------------------------

  function Max(a: int, b: int): int { if a < b then b else a }
  function Min(a: int, b: int): int { if a < b then a else b }

  // ---------------------------------------------------------------------
  // Decimal number text
  // ---------------------------------------------------------------------

  function DigitChar(d: nat): (c: char)
    requires d < 10
    ensures IsDigit(c)
  {
    ('0' as int + d) as char
  }

  function DigitValue(c: char): (d: nat)
    requires IsDigit(c)
    ensures d < 10 && DigitChar(d) == c
  {
    c as int - '0' as int
  }

  /** The decimal rendering of `n` (template-literal interpolation of a
      non-negative integer): digits only, no leading zero. */
  function NatToString(n: nat): (r: string)
    ensures |r| >= 1 && AllDigits(r)
    ensures n >= 10 ==> |r| >= 2
    ensures n < 10 ==> |r| == 1
    ensures r[0] == '0' ==> n == 0
  {
    if n < 10 then [DigitChar(n)] else NatToString(n / 10) + [DigitChar(n % 10)]
  }

  /** The rendering of an integer, with a minus sign when negative. */
  function IntToString(i: int): (r: string)
    ensures i >= 0 ==> r == NatToString(i)
    ensures i < 0 ==> r == "-" + NatToString(-i)
  {
    if i < 0 then "-" + NatToString(-i) else NatToString(i)
  }

  /** Different numbers render differently. */
  lemma {:induction false} NatToStringInjective(m: nat, n: nat)
    requires NatToString(m) == NatToString(n)
    ensures m == n
  {
    var sm, sn := NatToString(m), NatToString(n);
    if m >= 10 && n >= 10 {
      assert sm[..|sm| - 1] == NatToString(m / 10);
      assert sn[..|sn| - 1] == NatToString(n / 10);
      NatToStringInjective(m / 10, n / 10);
      assert DigitValue(sm[|sm| - 1]) == m % 10;
      assert DigitValue(sn[|sn| - 1]) == n % 10;
    } else if m < 10 && n < 10 {
      assert DigitValue(sm[0]) == m;
      assert DigitValue(sn[0]) == n;
    }
  }

  /** The value of a string of decimal digits. */
  function DigitsValue(ds: string): nat
    requires AllDigits(ds)
  {
    if ds == [] then 0
    else DigitsValue(ds[..|ds| - 1]) * 10 + DigitValue(ds[|ds| - 1])
  }

  /** Reading back a rendered number gives the number. */
  lemma {:induction false} DigitsValueOfNatToString(n: nat)
    ensures DigitsValue(NatToString(n)) == n
  {
    var s := NatToString(n);
    if n >= 10 {
      DigitsValueOfNatToString(n / 10);
      assert s[..|s| - 1] == NatToString(n / 10);
    }
  }

  /** The longest prefix of `s` made of digits. */
  function DigitPrefix(s: string): (r: string)
    ensures AllDigits(r) && |r| <= |s| && r == s[..|r|]
    ensures |r| < |s| ==> !IsDigit(s[|r|])
  {
    if s != [] && IsDigit(s[0]) then [s[0]] + DigitPrefix(s[1..]) else ""
  }

  lemma DigitPrefixOfDigits(s: string)
    requires AllDigits(s)
    ensures DigitPrefix(s) == s
  {
  }

  // ---------------------------------------------------------------------
  // Subsequences
  // ---------------------------------------------------------------------

  /** `a` is `b` with some elements left out, order kept. */
  ghost predicate IsSubsequence<T>(a: seq<T>, b: seq<T>)
    decreases |b|
  {
    if b == [] then a == []
    else
      IsSubsequence(a, b[..|b| - 1])
      || (a != [] && a[|a| - 1] == b[|b| - 1] && IsSubsequence(a[..|a| - 1], b[..|b| - 1]))
  }

  /** Everything in a subsequence is in the whole. */
  lemma {:induction false} SubsequenceMembers<T>(a: seq<T>, b: seq<T>)
    requires IsSubsequence(a, b)
    ensures forall x :: x in a ==> x in b
    decreases |b|
  {
    if b != [] {
      var bi := b[..|b| - 1];
      if IsSubsequence(a, bi) {
        SubsequenceMembers(a, bi);
      } else {
        SubsequenceMembers(a[..|a| - 1], bi);
        assert a == a[..|a| - 1] + [a[|a| - 1]];
      }
    }
  }

  /** A subsequence of a subsequence is a subsequence of the whole. */
  lemma {:induction false} SubsequenceTrans<T>(a: seq<T>, b: seq<T>, c: seq<T>)
    requires IsSubsequence(a, b) && IsSubsequence(b, c)
    ensures IsSubsequence(a, c)
    decreases |c|
  {
    if c != [] {
      var ci := c[..|c| - 1];
      if IsSubsequence(b, ci) {
        SubsequenceTrans(a, b, ci);
      } else {
        var bi := b[..|b| - 1];
        if IsSubsequence(a, bi) {
          SubsequenceTrans(a, bi, ci);
        } else {
          SubsequenceTrans(a[..|a| - 1], bi, ci);
        }
      }
    }
  }
}

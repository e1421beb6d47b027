/** Search keywords for a property (src/utils/keywords.ts): the location is
    cut into places, the title into content words and the operation into
    phrase variants; nested loops combine them into phrases, which are then
    deduplicated case-insensitively (first occurrence kept) and capped at 60. */
module Keywords {
  import opened Wrappers
  import opened Text

  /** The inputs of `generateKeywords`. The empty string stands for an
      absent text field: every test in the generator is a truthiness test,
      under which a missing string and `""` behave alike. */
  datatype KwInput = KwInput(
    title: string, location: string, operationType: string,
    measure: Option<int>, propertyType: string)

  const MaxKeywords := 60
  const MaxTitleWords := 10

  /** Words never taken from a title. */
  const Stop: set<string> := {
    "el", "la", "los", "las", "de", "del", "y", "o", "a", "en", "con", "para", "por",
    "km", "kms", "m2", "m\U{00B2}", "ha", "hectareas", "hect\U{00E1}reas", "un", "una", "unos", "unas",
    "al", "lo", "su", "sus", "tu", "tus", "mi", "mis", "que", "es", "se", "u$s", "usd"}

  // ---------------------------------------------------------------------
  // norm
  // ---------------------------------------------------------------------

  /** The `\p{Diacritic}` characters below U+0370. */
  predicate IsDiacritic(c: char) {
    c == '^' || c == '`' || c == '\U{00A8}' || c == '\U{00AF}' || c == '\U{00B4}'
    || c == '\U{00B7}' || c == '\U{00B8}' || '\U{02B0}' <= c <= '\U{034E}'
    || '\U{0350}' <= c <= '\U{0357}' || '\U{035D}' <= c <= '\U{0362}'
  }

  /** `normalize("NFD").replace(/\p{Diacritic}/gu, "")`: precomposed Latin-1
      letters lose their accent, diacritic characters are dropped. */
  function StripDiacritics(s: string): (r: string)
    ensures |r| <= |s|
    ensures forall i :: 0 <= i < |r| ==> !IsDiacritic(r[i])
  {
    if s == [] then []
    else if IsDiacritic(s[0]) then StripDiacritics(s[1..])
    else [BaseLetter(s[0])] + StripDiacritics(s[1..])
  }

  /** `norm`: accents stripped, then lower-cased. The result holds no
      diacritic and no upper-case letter. */
  function Norm(s: string): (r: string)
    ensures |r| <= |s|
    ensures forall i :: 0 <= i < |r| ==> !IsDiacritic(r[i]) && !IsUpperCase(r[i])
  {
    Lower(StripDiacritics(s))
  }

  /** Characters `norm` leaves alone: ASCII, neither upper-case nor a diacritic. */
  predicate IsPlain(c: char) {
    c < '\U{0080}' && !('A' <= c <= 'Z') && c != '^' && c != '`'
  }

  predicate AllPlain(s: string) { forall i :: 0 <= i < |s| ==> IsPlain(s[i]) }

  /** Plain text is already normalised. */
  lemma {:induction false} NormOfPlain(s: string)
    requires AllPlain(s)
    ensures Norm(s) == s
  {
    StripOfPlain(s);
    assert forall i :: 0 <= i < |s| ==> LowerChar(s[i]) == s[i];
  }

  lemma {:induction false} StripOfPlain(s: string)
    requires AllPlain(s)
    ensures StripDiacritics(s) == s
  {
    if s != [] {
      assert AllPlain(s[1..]) by {
        assert forall i :: 0 <= i < |s[1..]| ==> s[1..][i] == s[i + 1];
      }
      StripOfPlain(s[1..]);
      assert [s[0]] + s[1..] == s;
    }
  }

  // ---------------------------------------------------------------------
  // wordsFromTitle
  // ---------------------------------------------------------------------

  /** `\p{Letter}` or `\p{Number}`, for ASCII, Latin-1 and Latin Extended-A/B. */
  predicate IsLetterOrNumber(c: char) {
    IsAlnum(c) || c == '\U{00AA}' || c == '\U{00B2}' || c == '\U{00B3}' || c == '\U{00B5}'
    || c == '\U{00B9}' || c == '\U{00BA}' || '\U{00BC}' <= c <= '\U{00BE}'
    || ('\U{00C0}' <= c <= '\U{024F}' && c != '\U{00D7}' && c != '\U{00F7}')
  }

  /** `replace(/[^\p{Letter}\p{Number}\s]/gu, " ")`, with white space also
      written as a plain space: the split on `/\s+/` that follows, with its
      empty pieces filtered out, gives the same words either way. */
  function Blanked(s: string): (r: string)
    ensures |r| == |s|
    ensures forall i :: 0 <= i < |s| ==> r[i] == (if IsLetterOrNumber(s[i]) then s[i] else ' ')
  {
    seq(|s|, i requires 0 <= i < |s| => if IsLetterOrNumber(s[i]) then s[i] else ' ')
  }

  /** A word the title filter keeps: longer than two characters, not a stop word. */
  predicate IsTitleWord(w: string) { |w| > 2 && w !in Stop }

  /** `filter(w => w && !STOP.has(w) && w.length > 2)`. */
  function TitleWords(pieces: seq<string>): (r: seq<string>)
    ensures forall w :: w in r ==> IsTitleWord(w) && w in pieces
  {
    if pieces == [] then []
    else
      var init := TitleWords(pieces[..|pieces| - 1]);
      var w := pieces[|pieces| - 1];
      if IsTitleWord(w) then init + [w] else init
  }

  /** `wordsFromTitle`: at most ten content words of the normalised title. */
  function WordsFromTitle(t: string): (r: seq<string>)
    ensures |r| <= MaxTitleWords
    ensures forall w :: w in r ==> IsTitleWord(w) && NoneIn(w, {' '})
    ensures t == "" ==> r == []
  {
    if t == "" then []
    else
      var words := TitleWords(Split(Blanked(Norm(t)), {' '}));
      if |words| <= MaxTitleWords then words else words[..MaxTitleWords]
  }

  lemma {:induction false} TitleWordsOfWords(ws: seq<string>)
    requires forall k :: 0 <= k < |ws| ==> IsTitleWord(ws[k])
    ensures TitleWords(ws) == ws
  {
    if ws != [] {
      var init := ws[..|ws| - 1];
      assert forall k :: 0 <= k < |init| ==> init[k] == ws[k];
      TitleWordsOfWords(init);
      TitleWordsSnoc(ws);
      assert init + [ws[|ws| - 1]] == ws;
    }
  }

  lemma TitleWordsSnoc(ws: seq<string>)
    requires ws != [] && IsTitleWord(ws[|ws| - 1])
    ensures TitleWords(ws) == TitleWords(ws[..|ws| - 1]) + [ws[|ws| - 1]]
  {
  }

  lemma {:induction false} BlankedOfJoin(ws: seq<string>)
    requires forall k :: 0 <= k < |ws| ==> forall i :: 0 <= i < |ws[k]| ==> IsAlnum(ws[k][i])
    ensures Blanked(Join(ws, " ")) == Join(ws, " ")
    ensures AllPlainOrUpper(Join(ws, " "))
  {
    if |ws| > 1 {
      BlankedOfJoin(ws[1..]);
    }
  }

  /** Letters, digits and spaces only. */
  predicate AllPlainOrUpper(s: string) {
    forall i :: 0 <= i < |s| ==> IsAlnum(s[i]) || s[i] == ' '
  }

  /** Round trip: content words of lower-case ASCII letters and digits,
      at most ten, written with single spaces, are read back as they are. */
  lemma TitleOfWords(ws: seq<string>)
    requires 1 <= |ws| <= MaxTitleWords
    requires forall k :: 0 <= k < |ws| ==> IsTitleWord(ws[k])
    requires forall k :: 0 <= k < |ws| ==> forall i :: 0 <= i < |ws[k]| ==> 'a' <= ws[k][i] <= 'z' || IsDigit(ws[k][i])
    ensures WordsFromTitle(Join(ws, " ")) == ws
  {
    var t := Join(ws, " ");
    BlankedOfJoin(ws);
    LowerJoinPlain(ws);
    NormOfPlain(t);
    forall k | 0 <= k < |ws|
      ensures NoneIn(ws[k], {' '})
    {
      assert forall i :: 0 <= i < |ws[k]| ==> ws[k][i] != ' ';
    }
    SplitOfJoin(ws, ' ', {' '});
    TitleWordsOfWords(ws);
    assert t != "" by { JoinNotEmpty(ws); }
  }

  lemma {:induction false} LowerJoinPlain(ws: seq<string>)
    requires forall k :: 0 <= k < |ws| ==> forall i :: 0 <= i < |ws[k]| ==> 'a' <= ws[k][i] <= 'z' || IsDigit(ws[k][i])
    ensures AllPlain(Join(ws, " "))
  {
    if |ws| > 1 {
      LowerJoinPlain(ws[1..]);
    }
  }

  lemma JoinNotEmpty(ws: seq<string>)
    requires |ws| >= 1 && forall k :: 0 <= k < |ws| ==> |ws[k]| > 2
    ensures Join(ws, " ") != ""
  {
    if |ws| > 1 {
      assert |Join(ws, " ")| >= |ws[0]|;
    }
  }

  // ---------------------------------------------------------------------
  // placesFromLocation
  // ---------------------------------------------------------------------

  /** The separators of a location: `, - / | >`. */
  const PlaceSeps: set<char> := {',', '-', '/', '|', '>'}

  /** `placesFromLocation`: the trimmed, non-empty pieces of the normalised
      location between separators. */
  function PlacesFromLocation(loc: string): (r: seq<string>)
    ensures loc == "" ==> r == []
    ensures forall x :: x in r ==> x != "" && Trimmed(x) && NoneIn(x, PlaceSeps)
  {
    if loc == "" then []
    else
      var pieces := Split(Norm(loc), PlaceSeps);
      NonEmptyTrimmedShape(pieces, PlaceSeps);
      NonEmptyTrimmed(pieces)
  }

  /** Round trip: normalised place names joined with commas are read back. */
  lemma PlacesOfList(places: seq<string>)
    requires |places| >= 1
    requires forall k :: 0 <= k < |places| ==> places[k] != "" && Trimmed(places[k]) && NoneIn(places[k], PlaceSeps) && AllPlain(places[k])
    ensures PlacesFromLocation(Join(places, ",")) == places
  {
    var loc := Join(places, ",");
    JoinPlain(places);
    NormOfPlain(loc);
    SplitOfJoin(places, ',', PlaceSeps);
    NonEmptyTrimmedOfClean(places);
    assert loc != "" by { assert |loc| >= |places[0]|; }
  }

  lemma {:induction false} JoinPlain(places: seq<string>)
    requires forall k :: 0 <= k < |places| ==> AllPlain(places[k])
    ensures AllPlain(Join(places, ","))
    ensures |places| >= 1 ==> |Join(places, ",")| >= |places[0]|
  {
    if |places| > 1 {
      JoinPlain(places[1..]);
    }
  }

  // ---------------------------------------------------------------------
  // opVariants
  // ---------------------------------------------------------------------

  const LeasePhrases: seq<string> := ["arrendamiento", "alquiler", "arriendo", "en alquiler", "en arriendo"]
  const SalePhrases: seq<string> := ["venta", "en venta", "comprar", "venta de campos"]

  /** `opVariants`: the lease phrases exactly when the lower-cased operation
      mentions "arrend", the sale phrases otherwise. */
  function OpVariants(op: string): (r: seq<string>)
    ensures r == LeasePhrases || r == SalePhrases
    ensures r == LeasePhrases <==> Contains(Lower(op), "arrend")
  {
    if Contains(Lower(op), "arrend") then LeasePhrases else SalePhrases
  }

  /** The two operation types of the schema select the two phrase lists. */
  lemma OpVariantsOfOperationTypes()
    ensures OpVariants("Arrendamiento") == LeasePhrases
    ensures OpVariants("Venta") == SalePhrases
  {
    assert StartsWith(Lower("Arrendamiento")[0..], "arrend");
  }

  // ---------------------------------------------------------------------
  // The phrase blocks of generateKeywords
  // ---------------------------------------------------------------------

  const BaseNouns: seq<string> := ["campo", "campos", "campo rural", "campo agricola", "campo ganadero", "chacra", "estancia"]

  /** `propertyType ? [norm(propertyType)] : []`. */
  function MaybeType(propertyType: string): (r: seq<string>)
    ensures |r| <= 1
  {
    if propertyType == "" then [] else [Norm(propertyType)]
  }

  /** The hectare phrases, present only for a positive measure. */
  function SizeBits(measure: Option<int>): (r: seq<string>)
    ensures r != [] <==> measure.Some? && measure.value > 0
  {
    if measure.Some? && measure.value > 0
    then [IntToString(measure.value) + " ha", IntToString(measure.value) + " hectareas"]
    else []
  }

  function OpPhrases(p: string, o: string): seq<string> {
    ["campo " + o + " " + p, "campos " + o + " " + p, o + " de campo " + p, o + " de campos " + p]
  }

  /** The phrases of the first loop for one place. */
  function OpRow(p: string, ops: seq<string>): seq<string> {
    if ops == [] then [] else OpRow(p, ops[..|ops| - 1]) + OpPhrases(p, ops[|ops| - 1])
  }

  /** `if (!n) continue;` then two phrases. */
  function NounPhrases(p: string, n: string): seq<string> {
    if n == "" then [] else [n + " " + p, n + " en " + p]
  }

  function NounRow(p: string, nouns: seq<string>): seq<string> {
    if nouns == [] then [] else NounRow(p, nouns[..|nouns| - 1]) + NounPhrases(p, nouns[|nouns| - 1])
  }

  function SizeOpRow(p: string, s: string, ops: seq<string>): seq<string> {
    if ops == [] then [] else SizeOpRow(p, s, ops[..|ops| - 1]) + ["campo " + s + " " + ops[|ops| - 1] + " " + p]
  }

  function SizePhrases(p: string, s: string, ops: seq<string>): seq<string> {
    ["campo " + s + " " + p, "campo " + s + " en " + p] + SizeOpRow(p, s, ops)
  }

  function SizeRow(p: string, bits: seq<string>, ops: seq<string>): seq<string> {
    if bits == [] then [] else SizeRow(p, bits[..|bits| - 1], ops) + SizePhrases(p, bits[|bits| - 1], ops)
  }

  predicate IsCampoWord(w: string) { w == "campo" || w == "campos" }

  /** The phrases for title word `i`: none for "campo"/"campos", otherwise
      the word alone and, when a next word exists, the pair. */
  function TitlePhrases(p: string, words: seq<string>, i: nat): seq<string>
    requires i < |words|
  {
    if IsCampoWord(words[i]) then []
    else ["campo " + words[i] + " " + p]
         + (if i + 1 < |words| then ["campo " + words[i] + " " + words[i + 1] + " " + p] else [])
  }

  /** The title phrases of words `0 .. k-1` for one place. */
  function TitleRow(p: string, words: seq<string>, k: nat): seq<string>
    requires k <= |words|
  {
    if k == 0 then [] else TitleRow(p, words, k - 1) + TitlePhrases(p, words, k - 1)
  }

  /** The four place loops of `generateKeywords`. */
  datatype RowKind =
    | OpRows(ops: seq<string>)
    | NounRows(nouns: seq<string>)
    | SizeRows(bits: seq<string>, sizeOps: seq<string>)
    | TitleRows(words: seq<string>)

  function Row(kind: RowKind, p: string): seq<string> {
    match kind
    case OpRows(ops) => OpRow(p, ops)
    case NounRows(nouns) => NounRow(p, nouns)
    case SizeRows(bits, ops) => SizeRow(p, bits, ops)
    case TitleRows(words) => TitleRow(p, words, |words|)
  }

  /** One place loop over all places. */
  function Block(places: seq<string>, kind: RowKind): seq<string> {
    if places == [] then [] else Block(places[..|places| - 1], kind) + Row(kind, places[|places| - 1])
  }

  /** `ops.map(o => "campo " + o)`. */
  function CampoOps(ops: seq<string>): (r: seq<string>)
    ensures |r| == |ops|
    ensures forall i :: 0 <= i < |ops| ==> r[i] == "campo " + ops[i]
  {
    seq(|ops|, i requires 0 <= i < |ops| => "campo " + ops[i])
  }

  /** The phrases of the four place loops and the two fallbacks, in order. */
  function PhraseList(places: seq<string>, words: seq<string>, ops: seq<string>, bits: seq<string>, nouns: seq<string>): seq<string> {
    Block(places, OpRows(ops))
    + Block(places, NounRows(nouns))
    + (if bits != [] then Block(places, SizeRows(bits, ops)) else [])
    + Block(places, TitleRows(words))
    + CampoOps(ops) + BaseNouns
  }

  /** Everything `generateKeywords` pushes onto `combos`, in order. */
  function Combos(input: KwInput): seq<string> {
    PhraseList(
      PlacesFromLocation(input.location), WordsFromTitle(input.title), OpVariants(input.operationType),
      SizeBits(input.measure), BaseNouns + MaybeType(input.propertyType))
  }

  // ---------------------------------------------------------------------
  // dedupe
  // ---------------------------------------------------------------------

  /** The lower-cased entries of `d` (the `seen` set of `dedupe`). */
  function KeySet(d: seq<string>): set<string> {
    if d == [] then {} else KeySet(d[..|d| - 1]) + {Lower(d[|d| - 1])}
  }

  /** The key of every entry is in the key set. */
  lemma {:induction false} KeySetHas(d: seq<string>, i: nat)
    requires i < |d|
    ensures Lower(d[i]) in KeySet(d)
  {
    if i < |d| - 1 {
      assert d[..|d| - 1][i] == d[i];
      KeySetHas(d[..|d| - 1], i);
    }
  }

  /** The key set holds nothing but keys of entries. */
  lemma {:induction false} KeySetOnly(d: seq<string>, k: string)
    ensures k in KeySet(d) ==> exists i :: 0 <= i < |d| && Lower(d[i]) == k
  {
    if d != [] && k != Lower(d[|d| - 1]) {
      KeySetOnly(d[..|d| - 1], k);
      if k in KeySet(d) {
        var i :| 0 <= i < |d| - 1 && Lower(d[..|d| - 1][i]) == k;
        assert d[..|d| - 1][i] == d[i];
      }
    }
  }

  /** A key no entry has is not in the key set. */
  lemma KeyAbsent(d: seq<string>, k: string)
    requires forall i :: 0 <= i < |d| ==> Lower(d[i]) != k
    ensures k !in KeySet(d)
  {
    KeySetOnly(d, k);
  }

  lemma KeySetSnoc(d: seq<string>, s: string)
    ensures KeySet(d + [s]) == KeySet(d) + {Lower(s)}
  {
    assert (d + [s])[..|d|] == d;
  }

  /** What `dedupe` returns: each entry trimmed, dropped when its lower-cased
      form is empty or was already kept. */
  function Deduped(arr: seq<string>): (r: seq<string>)
    ensures forall i :: 0 <= i < |r| ==> r[i] != "" && Trimmed(r[i])
  {
    if arr == [] then []
    else
      var d := Deduped(arr[..|arr| - 1]);
      var s := Trim(arr[|arr| - 1]);
      if Lower(s) == "" || Lower(s) in KeySet(d) then d else d + [s]
  }

  /** One more entry is appended, trimmed, exactly when its key is new. */
  lemma DedupedSnoc(arr: seq<string>)
    requires arr != []
    ensures var d, s := Deduped(arr[..|arr| - 1]), Trim(arr[|arr| - 1]);
            Deduped(arr) == if Lower(s) == "" || Lower(s) in KeySet(d) then d else d + [s]
  {
  }

  /** No two kept entries have the same key. */
  lemma {:induction false} DedupedDistinct(arr: seq<string>)
    ensures KeysDistinct(Deduped(arr))
  {
    if arr != [] {
      var d, s := Deduped(arr[..|arr| - 1]), Trim(arr[|arr| - 1]);
      DedupedDistinct(arr[..|arr| - 1]);
      DedupedSnoc(arr);
      var r := Deduped(arr);
      if r != d {
        forall i, j | 0 <= i < j < |r|
          ensures Lower(r[i]) != Lower(r[j])
        {
          assert r[i] == d[i];
          if j == |d| {
            KeySetHas(d, i);
          } else {
            assert r[j] == d[j];
          }
        }
      }
    }
  }

  /** Every kept entry is a trimmed input. */
  lemma DedupedFrom(arr: seq<string>)
    ensures forall x :: x in Deduped(arr) ==> x in TrimAll(arr)
  {
    DedupedOrder(arr);
    SubsequenceMembers(Deduped(arr), TrimAll(arr));
  }

  /** `dedupe`: the loop with its `seen` set. */
  method Dedupe(arr: seq<string>) returns (out: seq<string>)
    ensures out == Deduped(arr)
  {
    var seen: set<string> := {};
    out := [];
    for i := 0 to |arr|
      invariant out == Deduped(arr[..i])
      invariant seen == KeySet(out)
    {
      var k := Lower(Trim(arr[i]));
      assert arr[..i + 1][..i] == arr[..i];
      DedupedSnoc(arr[..i + 1]);
      if k != "" && k !in seen {
        KeySetSnoc(out, Trim(arr[i]));
        seen := seen + {k};
        out := out + [Trim(arr[i])];
      }
    }
    assert arr[..|arr|] == arr;
  }

  /** The kept entries are trimmed inputs, in input order. */
  lemma {:induction false} DedupedOrder(arr: seq<string>)
    ensures IsSubsequence(Deduped(arr), TrimAll(arr))
  {
    if arr != [] {
      var n := |arr|;
      var init := arr[..n - 1];
      DedupedOrder(init);
      assert TrimAll(arr)[..n - 1] == TrimAll(init);
      DedupedSnoc(arr);
      var kept := Deduped(arr);
      if kept != Deduped(init) {
        assert kept[..|kept| - 1] == Deduped(init);
      }
    }
  }

  /** The keys kept so far stay kept, and the last entry's key, when not
      empty, is kept. */
  lemma DedupedKeysGrow(arr: seq<string>)
    requires arr != []
    ensures KeySet(Deduped(arr[..|arr| - 1])) <= KeySet(Deduped(arr))
    ensures Key(arr[|arr| - 1]) != "" ==> Key(arr[|arr| - 1]) in KeySet(Deduped(arr))
  {
    var d, s := Deduped(arr[..|arr| - 1]), Trim(arr[|arr| - 1]);
    DedupedSnoc(arr);
    if Deduped(arr) != d {
      KeySetSnoc(d, s);
    }
  }

  /** An input with a non-empty key is represented by a kept entry with
      that key. */
  lemma {:induction false} DedupedHasKey(arr: seq<string>, k: nat)
    requires k < |arr| && Key(arr[k]) != ""
    ensures Key(arr[k]) in KeySet(Deduped(arr))
  {
    DedupedKeysGrow(arr);
    if k < |arr| - 1 {
      var init := arr[..|arr| - 1];
      assert init[k] == arr[k];
      DedupedHasKey(init, k);
    }
  }

  /** Every input with a non-empty key is represented by a kept entry with
      that key. */
  lemma DedupedComplete(arr: seq<string>)
    ensures forall k :: 0 <= k < |arr| && Key(arr[k]) != "" ==> Key(arr[k]) in KeySet(Deduped(arr))
  {
    forall k | 0 <= k < |arr| && Key(arr[k]) != "" {
      DedupedHasKey(arr, k);
    }
  }

  /** An entry whose key no earlier input has is new to the kept list. */
  lemma FirstKeyIsNew(arr: seq<string>, k: nat)
    requires k < |arr|
    requires forall j :: 0 <= j < k ==> Key(arr[j]) != Key(arr[k])
    ensures Key(arr[k]) !in KeySet(Deduped(arr[..k]))
  {
    var init := arr[..k];
    var d := Deduped(init);
    DedupedFrom(init);
    forall i | 0 <= i < |d|
      ensures Lower(d[i]) != Key(arr[k])
    {
      assert d[i] in d;
      var j :| 0 <= j < |init| && TrimAll(init)[j] == d[i];
      assert init[j] == arr[j];
    }
    KeyAbsent(d, Key(arr[k]));
  }

  /** The first occurrence of each key is the one kept, trimmed. */
  lemma {:induction false} DedupedKeepsFirst(arr: seq<string>, k: nat)
    requires k < |arr| && Key(arr[k]) != ""
    requires forall j :: 0 <= j < k ==> Key(arr[j]) != Key(arr[k])
    ensures Trim(arr[k]) in Deduped(arr)
  {
    var init := arr[..|arr| - 1];
    DedupedSnoc(arr);
    if k == |arr| - 1 {
      FirstKeyIsNew(arr, k);
      assert init == arr[..k];
    } else {
      assert forall j :: 0 <= j < |init| ==> init[j] == arr[j];
      DedupedKeepsFirst(init, k);
    }
  }

  /** Each entry's key differs from the keys of the entries before it. */
  predicate FreshKeys(l: seq<string>) {
    l == [] || (FreshKeys(l[..|l| - 1]) && Lower(l[|l| - 1]) !in KeySet(l[..|l| - 1]))
  }

  lemma {:induction false} FreshOfDistinct(l: seq<string>)
    requires KeysDistinct(l)
    ensures FreshKeys(l)
  {
    if l != [] {
      KeysDistinctPrefix(l, |l| - 1);
      FreshOfDistinct(l[..|l| - 1]);
      LastKeyNew(l);
    }
  }

  lemma {:induction false} DedupedOfFresh(arr: seq<string>)
    requires AllFilled(arr) && FreshKeys(arr)
    ensures Deduped(arr) == arr
  {
    if arr != [] {
      var init, last := arr[..|arr| - 1], arr[|arr| - 1];
      AllFilledPrefix(arr, |arr| - 1);
      DedupedOfFresh(init);
      TrimOfTrimmed(last);
      DedupedSnoc(arr);
      assert init + [last] == arr;
    }
  }

  /** Entries that are already trimmed, non-empty and distinct ignoring case
      pass through unchanged. */
  lemma DedupedOfDistinct(arr: seq<string>)
    requires AllFilled(arr) && KeysDistinct(arr)
    ensures Deduped(arr) == arr
  {
    FreshOfDistinct(arr);
    DedupedOfFresh(arr);
  }

  /** In a list with distinct keys the last key is not among the earlier ones. */
  lemma LastKeyNew(arr: seq<string>)
    requires arr != [] && KeysDistinct(arr)
    ensures Lower(arr[|arr| - 1]) !in KeySet(arr[..|arr| - 1])
  {
    var init := arr[..|arr| - 1];
    forall i | 0 <= i < |init|
      ensures Lower(init[i]) != Lower(arr[|arr| - 1])
    {
      assert init[i] == arr[i];
    }
    KeyAbsent(init, Lower(arr[|arr| - 1]));
  }

  lemma AllFilledPrefix(l: seq<string>, n: nat)
    requires n <= |l| && AllFilled(l)
    ensures AllFilled(l[..n])
  {
    assert forall k :: 0 <= k < n ==> l[..n][k] == l[k];
  }

  // ---------------------------------------------------------------------
  // generateKeywords
  // ---------------------------------------------------------------------

  /** What `generateKeywords` returns: at most 60 trimmed, non-empty
      phrases, no two equal ignoring case. */
  function Keywords(input: KwInput): (r: seq<string>)
    ensures |r| <= MaxKeywords
    ensures forall i :: 0 <= i < |r| ==> r[i] != "" && Trimmed(r[i])
    ensures forall i, j :: 0 <= i < j < |r| ==> Lower(r[i]) != Lower(r[j])
  {
    var d := Deduped(Combos(input));
    DedupedDistinct(Combos(input));
    if |d| <= MaxKeywords then d
    else
      KeysDistinctPrefix(d, MaxKeywords);
      AllFilledPrefix(d, MaxKeywords);
      d[..MaxKeywords]
  }

  /** No two entries of `l` have the same key. */
  predicate KeysDistinct(l: seq<string>) {
    forall i, j :: 0 <= i < j < |l| ==> Lower(l[i]) != Lower(l[j])
  }

  lemma KeysDistinctPrefix(l: seq<string>, n: nat)
    requires n <= |l| && KeysDistinct(l)
    ensures KeysDistinct(l[..n])
  {
    forall i, j | 0 <= i < j < n
      ensures Lower(l[..n][i]) != Lower(l[..n][j])
    {
      assert l[..n][i] == l[i] && l[..n][j] == l[j];
    }
  }

  lemma AppendAssoc<T>(a: seq<T>, b: seq<T>, c: seq<T>)
    ensures a + b + c == a + (b + c)
  {
  }

  lemma Push2<T>(s: seq<T>, x: T, y: T)
    ensures s + [x] + [y] == s + [x, y]
  {
  }

  lemma Push4<T>(s: seq<T>, w: T, x: T, y: T, z: T)
    ensures s + [w] + [x] + [y] + [z] == s + [w, x, y, z]
  {
  }

  /** One more place adds its row to a block. */
  lemma BlockSnoc(places: seq<string>, i: nat, kind: RowKind)
    requires i < |places|
    ensures Block(places[..i + 1], kind) == Block(places[..i], kind) + Row(kind, places[i])
  {
    assert places[..i + 1][..i] == places[..i];
  }

  lemma OpRowSnoc(p: string, ops: seq<string>, j: nat)
    requires j < |ops|
    ensures OpRow(p, ops[..j + 1]) == OpRow(p, ops[..j]) + OpPhrases(p, ops[j])
  {
    assert ops[..j + 1][..j] == ops[..j];
  }

  lemma NounRowSnoc(p: string, nouns: seq<string>, j: nat)
    requires j < |nouns|
    ensures NounRow(p, nouns[..j + 1]) == NounRow(p, nouns[..j]) + NounPhrases(p, nouns[j])
  {
    assert nouns[..j + 1][..j] == nouns[..j];
  }

  lemma SizeOpRowSnoc(p: string, s: string, ops: seq<string>, k: nat)
    requires k < |ops|
    ensures SizeOpRow(p, s, ops[..k + 1]) == SizeOpRow(p, s, ops[..k]) + ["campo " + s + " " + ops[k] + " " + p]
  {
    assert ops[..k + 1][..k] == ops[..k];
  }

  lemma SizeRowSnoc(p: string, bits: seq<string>, ops: seq<string>, j: nat)
    requires j < |bits|
    ensures SizeRow(p, bits[..j + 1], ops) == SizeRow(p, bits[..j], ops) + SizePhrases(p, bits[j], ops)
  {
    assert bits[..j + 1][..j] == bits[..j];
  }

  /** The body of the first place loop for one place: four phrases per
      operation variant. */
  method PushOpRow(combos: seq<string>, p: string, ops: seq<string>) returns (out: seq<string>)
    ensures out == combos + OpRow(p, ops)
  {
    out := combos;
    for j := 0 to |ops|
      invariant out == combos + OpRow(p, ops[..j])
    {
      var o := ops[j];
      ghost var row := out;
      out := out + ["campo " + o + " " + p];
      out := out + ["campos " + o + " " + p];
      out := out + [o + " de campo " + p];
      out := out + [o + " de campos " + p];
      Push4(row, "campo " + o + " " + p, "campos " + o + " " + p, o + " de campo " + p, o + " de campos " + p);
      OpRowSnoc(p, ops, j);
      AppendAssoc(combos, OpRow(p, ops[..j]), OpPhrases(p, o));
    }
    assert ops[..|ops|] == ops;
  }

  /** The first place loop. */
  method PushOpPhrases(combos: seq<string>, places: seq<string>, ops: seq<string>) returns (out: seq<string>)
    ensures out == combos + Block(places, OpRows(ops))
  {
    out := combos;
    for i := 0 to |places|
      invariant out == combos + Block(places[..i], OpRows(ops))
    {
      out := PushOpRow(out, places[i], ops);
      BlockSnoc(places, i, OpRows(ops));
      AppendAssoc(combos, Block(places[..i], OpRows(ops)), Row(OpRows(ops), places[i]));
    }
    assert places[..|places|] == places;
  }

  /** The body of the second place loop for one place: two phrases per
      non-empty noun. */
  method PushNounRow(combos: seq<string>, p: string, nouns: seq<string>) returns (out: seq<string>)
    ensures out == combos + NounRow(p, nouns)
  {
    out := combos;
    for j := 0 to |nouns|
      invariant out == combos + NounRow(p, nouns[..j])
    {
      var n := nouns[j];
      ghost var row := out;
      if n != "" {
        out := out + [n + " " + p];
        out := out + [n + " en " + p];
        Push2(row, n + " " + p, n + " en " + p);
      }
      NounRowSnoc(p, nouns, j);
      AppendAssoc(combos, NounRow(p, nouns[..j]), NounPhrases(p, n));
    }
    assert nouns[..|nouns|] == nouns;
  }

  /** The second place loop. */
  method PushNounPhrases(combos: seq<string>, places: seq<string>, nouns: seq<string>) returns (out: seq<string>)
    ensures out == combos + Block(places, NounRows(nouns))
  {
    out := combos;
    for i := 0 to |places|
      invariant out == combos + Block(places[..i], NounRows(nouns))
    {
      out := PushNounRow(out, places[i], nouns);
      BlockSnoc(places, i, NounRows(nouns));
      AppendAssoc(combos, Block(places[..i], NounRows(nouns)), Row(NounRows(nouns), places[i]));
    }
    assert places[..|places|] == places;
  }

  /** The innermost loop of the third block: one phrase per operation variant. */
  method PushSizeOps(combos: seq<string>, p: string, s: string, ops: seq<string>) returns (out: seq<string>)
    ensures out == combos + SizeOpRow(p, s, ops)
  {
    out := combos;
    for k := 0 to |ops|
      invariant out == combos + SizeOpRow(p, s, ops[..k])
    {
      SizeOpRowSnoc(p, s, ops, k);
      AppendAssoc(combos, SizeOpRow(p, s, ops[..k]), ["campo " + s + " " + ops[k] + " " + p]);
      out := out + ["campo " + s + " " + ops[k] + " " + p];
    }
    assert ops[..|ops|] == ops;
  }

  /** The body of the third place loop for one place: per hectare phrase,
      two phrases and one more per operation variant. */
  method PushSizeRow(combos: seq<string>, p: string, sizeBits: seq<string>, ops: seq<string>) returns (out: seq<string>)
    ensures out == combos + SizeRow(p, sizeBits, ops)
  {
    out := combos;
    for j := 0 to |sizeBits|
      invariant out == combos + SizeRow(p, sizeBits[..j], ops)
    {
      var s := sizeBits[j];
      ghost var row := out;
      out := out + ["campo " + s + " " + p];
      out := out + ["campo " + s + " en " + p];
      Push2(row, "campo " + s + " " + p, "campo " + s + " en " + p);
      ghost var pair := out;
      out := PushSizeOps(out, p, s, ops);
      AppendAssoc(row, ["campo " + s + " " + p, "campo " + s + " en " + p], SizeOpRow(p, s, ops));
      SizeRowSnoc(p, sizeBits, ops, j);
      AppendAssoc(combos, SizeRow(p, sizeBits[..j], ops), SizePhrases(p, s, ops));
    }
    assert sizeBits[..|sizeBits|] == sizeBits;
  }

  /** The third place loop. */
  method PushSizePhrases(combos: seq<string>, places: seq<string>, sizeBits: seq<string>, ops: seq<string>)
    returns (out: seq<string>)
    ensures out == combos + Block(places, SizeRows(sizeBits, ops))
  {
    out := combos;
    for i := 0 to |places|
      invariant out == combos + Block(places[..i], SizeRows(sizeBits, ops))
    {
      out := PushSizeRow(out, places[i], sizeBits, ops);
      BlockSnoc(places, i, SizeRows(sizeBits, ops));
      AppendAssoc(combos, Block(places[..i], SizeRows(sizeBits, ops)), Row(SizeRows(sizeBits, ops), places[i]));
    }
    assert places[..|places|] == places;
  }

  lemma TitleRowSnoc(p: string, words: seq<string>, j: nat)
    requires j < |words|
    ensures TitleRow(p, words, j + 1) == TitleRow(p, words, j) + TitlePhrases(p, words, j)
  {
  }

  /** The body of the fourth place loop for one place: the phrases of each
      title word. */
  method PushTitleRow(combos: seq<string>, p: string, titleWords: seq<string>) returns (out: seq<string>)
    ensures out == combos + TitleRow(p, titleWords, |titleWords|)
  {
    out := combos;
    for j := 0 to |titleWords|
      invariant out == combos + TitleRow(p, titleWords, j)
    {
      var a := titleWords[j];
      ghost var row := out;
      if a != "campo" && a != "campos" {
        out := out + ["campo " + a + " " + p];
        if j + 1 < |titleWords| {
          var b := titleWords[j + 1];
          out := out + ["campo " + a + " " + b + " " + p];
          Push2(row, "campo " + a + " " + p, "campo " + a + " " + b + " " + p);
        }
      }
      TitleRowSnoc(p, titleWords, j);
      AppendAssoc(combos, TitleRow(p, titleWords, j), TitlePhrases(p, titleWords, j));
    }
  }

  /** The fourth place loop. */
  method PushTitlePhrases(combos: seq<string>, places: seq<string>, titleWords: seq<string>) returns (out: seq<string>)
    ensures out == combos + Block(places, TitleRows(titleWords))
  {
    out := combos;
    for i := 0 to |places|
      invariant out == combos + Block(places[..i], TitleRows(titleWords))
    {
      out := PushTitleRow(out, places[i], titleWords);
      BlockSnoc(places, i, TitleRows(titleWords));
      AppendAssoc(combos, Block(places[..i], TitleRows(titleWords)), Row(TitleRows(titleWords), places[i]));
    }
    assert places[..|places|] == places;
  }

  /** `generateKeywords`: the four place loops, the operation and noun
      fallbacks, then `dedupe` and the cap. */
  method GenerateKeywords(input: KwInput) returns (keywords: seq<string>)
    ensures keywords == Keywords(input)
  {
    var places := PlacesFromLocation(input.location);
    var titleWords := WordsFromTitle(input.title);
    var ops := OpVariants(input.operationType);
    var sizeBits := SizeBits(input.measure);
    var nouns := BaseNouns + MaybeType(input.propertyType);

    ghost var opBlock := Block(places, OpRows(ops));
    ghost var sizeBlock := if sizeBits != [] then Block(places, SizeRows(sizeBits, ops)) else [];
    var combos := PushOpPhrases([], places, ops);
    assert combos == opBlock;
    combos := PushNounPhrases(combos, places, nouns);
    ghost var head := combos;
    if |sizeBits| > 0 {
      combos := PushSizePhrases(combos, places, sizeBits, ops);
    } else {
      assert head + sizeBlock == head;
    }
    assert combos == head + sizeBlock;
    combos := PushTitlePhrases(combos, places, titleWords);
    combos := combos + CampoOps(ops);
    combos := combos + BaseNouns;
    assert combos == PhraseList(places, titleWords, ops, sizeBits, nouns);

    var deduped := Dedupe(combos);
    keywords := if |deduped| <= MaxKeywords then deduped else deduped[..MaxKeywords];
  }

  // ---------------------------------------------------------------------
  // What the phrases are
  // ---------------------------------------------------------------------

  /** Every phrase of a place's row is in the block. */
  lemma {:induction false} BlockContains(places: seq<string>, kind: RowKind, i: nat, x: string)
    requires i < |places| && x in Row(kind, places[i])
    ensures x in Block(places, kind)
  {
    var init := places[..|places| - 1];
    if i < |places| - 1 {
      assert init[i] == places[i];
      BlockContains(init, kind, i, x);
    }
  }

  /** `x` is a phrase title word `i` yields at place `p`: the word alone or
      the word with its successor, unless the word is "campo"/"campos". */
  predicate IsTitlePhrase(p: string, words: seq<string>, i: nat, x: string)
    requires i < |words|
  {
    !IsCampoWord(words[i])
    && (x == "campo " + words[i] + " " + p
        || (i + 1 < |words| && x == "campo " + words[i] + " " + words[i + 1] + " " + p))
  }

  lemma TitlePhrasesMembers(p: string, words: seq<string>, i: nat, x: string)
    requires i < |words|
    ensures x in TitlePhrases(p, words, i) <==> IsTitlePhrase(p, words, i, x)
  {
  }

  /** The title phrases are exactly: for each title word other than
      "campo"/"campos", the word alone and the word with its successor. */
  lemma {:induction false} TitleRowMembers(p: string, words: seq<string>, k: nat, x: string)
    requires k <= |words|
    ensures x in TitleRow(p, words, k) <==> exists i :: 0 <= i < k && IsTitlePhrase(p, words, i, x)
  {
    if k > 0 {
      TitleRowMembers(p, words, k - 1, x);
      TitleRowSnoc(p, words, k - 1);
      TitlePhrasesMembers(p, words, k - 1, x);
      if x in TitleRow(p, words, k) {
        if x in TitleRow(p, words, k - 1) {
          var i :| 0 <= i < k - 1 && IsTitlePhrase(p, words, i, x);
          assert 0 <= i < k && IsTitlePhrase(p, words, i, x);
        } else {
          assert IsTitlePhrase(p, words, k - 1, x);
        }
      }
      if exists i :: 0 <= i < k && IsTitlePhrase(p, words, i, x) {
        var i :| 0 <= i < k && IsTitlePhrase(p, words, i, x);
        if i < k - 1 {
          assert x in TitleRow(p, words, k - 1);
        } else {
          assert x in TitlePhrases(p, words, k - 1);
        }
      }
    }
  }

  /** Every title word other than "campo"/"campos" gives the phrase
      "campo <word> <place>" for every place. */
  lemma TitleWordPhrase(input: KwInput, i: nat, j: nat)
    requires i < |WordsFromTitle(input.title)| && j < |PlacesFromLocation(input.location)|
    requires !IsCampoWord(WordsFromTitle(input.title)[i])
    ensures "campo " + WordsFromTitle(input.title)[i] + " " + PlacesFromLocation(input.location)[j] in Combos(input)
  {
    var words, places := WordsFromTitle(input.title), PlacesFromLocation(input.location);
    var x := "campo " + words[i] + " " + places[j];
    assert IsTitlePhrase(places[j], words, i, x);
    TitleRowMembers(places[j], words, |words|, x);
    BlockContains(places, TitleRows(words), j, x);
  }

  /** A measure that is missing or not positive contributes nothing. */
  lemma MeasureIgnoredUnlessPositive(input: KwInput)
    requires !(input.measure.Some? && input.measure.value > 0)
    ensures Combos(input) == Combos(input.(measure := None))
    ensures Keywords(input) == Keywords(input.(measure := None))
  {
  }

  /** A positive measure gives the hectare phrase for every place. */
  lemma HectarePhrase(input: KwInput, j: nat)
    requires input.measure.Some? && input.measure.value > 0
    requires j < |PlacesFromLocation(input.location)|
    ensures "campo " + IntToString(input.measure.value) + " ha " + PlacesFromLocation(input.location)[j] in Combos(input)
  {
    var places := PlacesFromLocation(input.location);
    var ops := OpVariants(input.operationType);
    var bits := SizeBits(input.measure);
    var p := places[j];
    var x := "campo " + IntToString(input.measure.value) + " ha " + p;
    assert x == "campo " + bits[0] + " " + p;
    assert SizeRow(p, bits, ops) == SizeRow(p, bits[..1], ops) + SizePhrases(p, bits[1], ops);
    assert bits[..1][..0] == [];
    assert x in SizeRow(p, bits[..1], ops);
    BlockContains(places, SizeRows(bits, ops), j, x);
    var all := Combos(input);
    var head := Block(places, OpRows(ops)) + Block(places, NounRows(BaseNouns + MaybeType(input.propertyType)));
    assert all == head + Block(places, SizeRows(bits, ops)) + Block(places, TitleRows(WordsFromTitle(input.title))) + CampoOps(ops) + BaseNouns;
  }

  lemma {:induction false} BlockOfNoPlaces(kind: RowKind)
    ensures Block([], kind) == []
  {
  }

  /** Lower-case letters and spaces only. */
  predicate IsLowerCase(s: string) {
    forall i :: 0 <= i < |s| ==> 'a' <= s[i] <= 'z' || s[i] == ' '
  }

  /** Lower-case phrases, trimmed and all different, pass `dedupe` unchanged. */
  lemma DedupedOfLowerCase(arr: seq<string>)
    requires CleanPhrases(arr)
    ensures Deduped(arr) == arr
  {
    forall k | 0 <= k < |arr|
      ensures Lower(arr[k]) == arr[k]
    {
      assert forall i :: 0 <= i < |arr[k]| ==> LowerChar(arr[k][i]) == arr[k][i];
    }
    assert KeysDistinct(arr);
    DedupedOfDistinct(arr);
  }

  /** The fallback phrases for a lease, written out. */
  const LeaseFallbacks: seq<string> := ["campo arrendamiento", "campo alquiler", "campo arriendo",
    "campo en alquiler", "campo en arriendo", "campo", "campos", "campo rural", "campo agricola",
    "campo ganadero", "chacra", "estancia"]

  /** The fallback phrases for a sale, written out. */
  const SaleFallbacks: seq<string> := ["campo venta", "campo en venta", "campo comprar",
    "campo venta de campos", "campo", "campos", "campo rural", "campo agricola", "campo ganadero",
    "chacra", "estancia"]

  lemma CampoOpsOfLease()
    ensures CampoOps(LeasePhrases) + BaseNouns == LeaseFallbacks
  {
    var c := CampoOps(LeasePhrases);
    assert c[0] == "campo arrendamiento" && c[1] == "campo alquiler" && c[2] == "campo arriendo";
    assert c[3] == "campo en alquiler" && c[4] == "campo en arriendo";
  }

  lemma CampoOpsOfSale()
    ensures CampoOps(SalePhrases) + BaseNouns == SaleFallbacks
  {
    var c := CampoOps(SalePhrases);
    assert c[0] == "campo venta" && c[1] == "campo en venta";
    assert c[2] == "campo comprar" && c[3] == "campo venta de campos";
  }

  /** Lower-case, trimmed, non-empty and pairwise different. */
  predicate CleanPhrases(l: seq<string>) {
    AllLowerCase(l) && AllFilled(l) && AllDifferent(l)
  }

  predicate AllLowerCase(l: seq<string>) { forall k :: 0 <= k < |l| ==> IsLowerCase(l[k]) }
  predicate AllFilled(l: seq<string>) { forall k :: 0 <= k < |l| ==> l[k] != "" && Trimmed(l[k]) }
  predicate AllDifferent(l: seq<string>) { forall i, j :: 0 <= i < j < |l| ==> l[i] != l[j] }

  lemma LowerCaseConcat(a: string, b: string)
    requires IsLowerCase(a) && IsLowerCase(b)
    ensures IsLowerCase(a + b)
  {
  }

  lemma AllLowerCaseConcat(l1: seq<string>, l2: seq<string>)
    requires AllLowerCase(l1) && AllLowerCase(l2)
    ensures AllLowerCase(l1 + l2)
  {
  }

  /** "campo " before lower-case phrases gives lower-case phrases. */
  lemma CampoOpsLowerCase(ops: seq<string>)
    requires AllLowerCase(ops)
    ensures AllLowerCase(CampoOps(ops))
  {
    forall k | 0 <= k < |ops|
      ensures IsLowerCase(CampoOps(ops)[k])
    {
      LowerCaseConcat("campo ", ops[k]);
    }
  }

  lemma LeasePhrasesLowerCase() ensures AllLowerCase(LeasePhrases) { }
  lemma SalePhrasesLowerCase() ensures AllLowerCase(SalePhrases) { }
  lemma BaseNounsLowerCase() ensures AllLowerCase(BaseNouns) { }

  /** The fallbacks of both operation lists are lower-case. */
  lemma FallbacksLowerCase(ops: seq<string>)
    requires ops == LeasePhrases || ops == SalePhrases
    ensures AllLowerCase(CampoOps(ops) + BaseNouns)
  {
    if ops == LeasePhrases {
      LeasePhrasesLowerCase();
    } else {
      SalePhrasesLowerCase();
    }
    CampoOpsLowerCase(ops);
    BaseNounsLowerCase();
    AllLowerCaseConcat(CampoOps(ops), BaseNouns);
  }

  lemma LeaseFilled() ensures AllFilled(LeaseFallbacks) { }
  lemma LeaseDifferent() ensures AllDifferent(LeaseFallbacks) { }

  lemma SaleFilled() ensures AllFilled(SaleFallbacks) { }
  lemma SaleDifferent() ensures AllDifferent(SaleFallbacks) { }

  /** Without places the keywords are exactly "campo <variant>" for each
      operation variant followed by the base nouns: 11 for a sale, 12 for a
      lease. */
  lemma KeywordsWithoutPlaces(input: KwInput)
    requires PlacesFromLocation(input.location) == []
    ensures Keywords(input) == CampoOps(OpVariants(input.operationType)) + BaseNouns
    ensures |Keywords(input)| == (if OpVariants(input.operationType) == LeasePhrases then 12 else 11)
  {
    var ops := OpVariants(input.operationType);
    PhraseListWithoutPlaces(WordsFromTitle(input.title), ops, SizeBits(input.measure), BaseNouns + MaybeType(input.propertyType));
    assert Combos(input) == CampoOps(ops) + BaseNouns;
    FallbacksDistinct(ops);
    assert |CampoOps(ops) + BaseNouns| == |ops| + 7;
  }

  /** Without places only the two fallbacks remain. */
  lemma PhraseListWithoutPlaces(words: seq<string>, ops: seq<string>, bits: seq<string>, nouns: seq<string>)
    ensures PhraseList([], words, ops, bits, nouns) == CampoOps(ops) + BaseNouns
  {
    BlockOfNoPlaces(OpRows(ops));
    BlockOfNoPlaces(NounRows(nouns));
    BlockOfNoPlaces(SizeRows(bits, ops));
    BlockOfNoPlaces(TitleRows(words));
  }

  /** The fallback phrases are already distinct lower-case phrases. */
  lemma FallbacksDistinct(ops: seq<string>)
    requires ops == LeasePhrases || ops == SalePhrases
    ensures Deduped(CampoOps(ops) + BaseNouns) == CampoOps(ops) + BaseNouns
  {
    FallbacksLowerCase(ops);
    if ops == LeasePhrases {
      CampoOpsOfLease();
      LeaseFilled();
      LeaseDifferent();
    } else {
      CampoOpsOfSale();
      SaleFilled();
      SaleDifferent();
    }
    DedupedOfLowerCase(CampoOps(ops) + BaseNouns);
  }
}

/** The video link normaliser (src/utils/videoUrls.ts): the links a form
    sends, split, trimmed and filtered down to those that look like videos. */
module VideoUrls {
  import opened Wrappers
  import opened Text
  import opened Form

  /** The two parts of a parsed URL the filter looks at. */
  datatype Url = Url(hostname: string, pathname: string)

  /** A location served by a known video host, or a path to an MP4 file;
      host and path are compared lower-cased. */
  predicate IsVideoLocation(u: Url) {
    var host := Lower(u.hostname);
    Contains(host, "youtube.com") || Contains(host, "youtu.be") || Contains(host, "vimeo.com")
    || EndsWith(Lower(u.pathname), ".mp4")
  }

  /** `isLikelyVideoUrl`. `parseUrl` stands for the `URL` constructor: the
      host name and path of an absolute URL, `None` where the constructor
      throws (the error is caught and the entry refused). */
  function IsLikelyVideoUrl(url: string, parseUrl: string -> Option<Url>): (r: bool)
    ensures parseUrl(url).None? ==> !r
    ensures parseUrl(url).Some? ==> (r <==> IsVideoLocation(parseUrl(url).value))
  {
    match parseUrl(url)
    case None => false
    case Some(u) => IsVideoLocation(u)
  }

  /** The raw entries: the elements of an array, the comma-separated pieces
      of a string, nothing for any other value. */
  function RawEntries(input: Field): (r: seq<string>)
    ensures input.Absent? ==> r == []
    ensures input.Many? ==> r == input.items
    ensures input.Str? ==> |r| >= 1 && Join(r, ",") == input.s
  {
    match input
    case Many(items) => items
    case Str(s) => SplitJoin(s, ','); Split(s, {','})
    case Absent => []
  }

  /** `filter(isLikelyVideoUrl)`. */
  function KeepVideos(entries: seq<string>, parseUrl: string -> Option<Url>): (r: seq<string>)
    ensures |r| <= |entries|
    ensures forall k :: 0 <= k < |r| ==> IsLikelyVideoUrl(r[k], parseUrl)
  {
    if entries == [] then []
    else
      var init := KeepVideos(entries[..|entries| - 1], parseUrl);
      var last := entries[|entries| - 1];
      if IsLikelyVideoUrl(last, parseUrl) then init + [last] else init
  }

  /** The kept entries are input entries, in their order. */
  lemma {:induction false} KeepVideosOrder(entries: seq<string>, parseUrl: string -> Option<Url>)
    ensures IsSubsequence(KeepVideos(entries, parseUrl), entries)
  {
    if entries != [] {
      var init := entries[..|entries| - 1];
      KeepVideosOrder(init, parseUrl);
      var r := KeepVideos(entries, parseUrl);
      if IsLikelyVideoUrl(entries[|entries| - 1], parseUrl) {
        assert r[..|r| - 1] == KeepVideos(init, parseUrl);
      }
    }
  }

  /** Every entry that looks like a video is kept. */
  lemma {:induction false} KeepVideosComplete(entries: seq<string>, parseUrl: string -> Option<Url>)
    ensures forall k :: 0 <= k < |entries| && IsLikelyVideoUrl(entries[k], parseUrl)
              ==> entries[k] in KeepVideos(entries, parseUrl)
  {
    if entries != [] {
      var init := entries[..|entries| - 1];
      KeepVideosComplete(init, parseUrl);
      assert forall k :: 0 <= k < |init| ==> init[k] == entries[k];
    }
  }

  /** A list of video links passes the filter unchanged. */
  lemma {:induction false} KeepVideosOfVideos(entries: seq<string>, parseUrl: string -> Option<Url>)
    requires forall k :: 0 <= k < |entries| ==> IsLikelyVideoUrl(entries[k], parseUrl)
    ensures KeepVideos(entries, parseUrl) == entries
  {
    if entries != [] {
      var init := entries[..|entries| - 1];
      assert forall k :: 0 <= k < |init| ==> init[k] == entries[k];
      KeepVideosOfVideos(init, parseUrl);
    }
  }

  /** `normalizeVideoUrls`: the entries trimmed, the empty ones dropped, and
      only the likely video links kept. */
  function NormalizeVideoUrls(input: Field, parseUrl: string -> Option<Url>): (r: seq<string>)
    ensures forall k :: 0 <= k < |r| ==> r[k] != "" && Trimmed(r[k]) && IsLikelyVideoUrl(r[k], parseUrl)
    ensures input.Absent? ==> r == []
  {
    var pieces := RawEntries(input);
    var clean := NonEmptyTrimmed(pieces);
    NonEmptyTrimmedShape(pieces, {});
    KeepVideosOrder(clean, parseUrl);
    SubsequenceMembers(KeepVideos(clean, parseUrl), clean);
    KeepVideos(clean, parseUrl)
  }

  /** The output is the trimmed input entries with some left out, in order. */
  lemma NormalizeVideoUrlsOrder(input: Field, parseUrl: string -> Option<Url>)
    ensures IsSubsequence(NormalizeVideoUrls(input, parseUrl), TrimAll(RawEntries(input)))
  {
    var pieces := RawEntries(input);
    var clean := NonEmptyTrimmed(pieces);
    KeepVideosOrder(clean, parseUrl);
    NonEmptyTrimmedOrder(pieces);
    SubsequenceTrans(KeepVideos(clean, parseUrl), clean, TrimAll(pieces));
  }

  /** A text is in the output exactly when it is a trimmed input entry that
      is not empty and looks like a video link. */
  lemma NormalizeVideoUrlsMembers(input: Field, parseUrl: string -> Option<Url>, x: string)
    ensures x in NormalizeVideoUrls(input, parseUrl)
            <==> x in TrimAll(RawEntries(input)) && x != "" && IsLikelyVideoUrl(x, parseUrl)
  {
    var pieces := RawEntries(input);
    var clean := NonEmptyTrimmed(pieces);
    var r := NormalizeVideoUrls(input, parseUrl);
    if x in r {
      NormalizeVideoUrlsOrder(input, parseUrl);
      SubsequenceMembers(r, TrimAll(pieces));
    }
    if x in TrimAll(pieces) && x != "" && IsLikelyVideoUrl(x, parseUrl) {
      NonEmptyTrimmedComplete(pieces);
      KeepVideosComplete(clean, parseUrl);
    }
  }

  /** An entry the URL parser refuses never reaches the output. */
  lemma UnparseableDropped(input: Field, parseUrl: string -> Option<Url>, x: string)
    requires parseUrl(x).None?
    ensures x !in NormalizeVideoUrls(input, parseUrl)
  {
    NormalizeVideoUrlsMembers(input, parseUrl, x);
  }

  /** Entries that are already clean video links pass through unchanged. */
  lemma NormalizeOfClean(input: Field, items: seq<string>, parseUrl: string -> Option<Url>)
    requires NonEmptyTrimmed(RawEntries(input)) == items
    requires forall k :: 0 <= k < |items| ==> IsLikelyVideoUrl(items[k], parseUrl)
    ensures NormalizeVideoUrls(input, parseUrl) == items
  {
    KeepVideosOfVideos(items, parseUrl);
  }

  /** Round trip: trimmed, comma-free video links sent as one comma-separated
      string, or as an array, come back as they were. */
  lemma NormalizeVideoUrlsRoundTrip(items: seq<string>, parseUrl: string -> Option<Url>)
    requires forall k :: 0 <= k < |items| ==> items[k] != "" && Trimmed(items[k]) && NoneIn(items[k], {','})
    requires forall k :: 0 <= k < |items| ==> IsLikelyVideoUrl(items[k], parseUrl)
    ensures NormalizeVideoUrls(Str(Join(items, ",")), parseUrl) == items
    ensures NormalizeVideoUrls(Many(items), parseUrl) == items
  {
    NonEmptyTrimmedOfClean(items);
    if items == [] {
      assert Split("", {','}) == [""];
      assert NonEmptyTrimmed([""]) == [];
    } else {
      SplitOfJoin(items, ',', {','});
    }
    NormalizeOfClean(Str(Join(items, ",")), items, parseUrl);
    NormalizeOfClean(Many(items), items, parseUrl);
  }
}

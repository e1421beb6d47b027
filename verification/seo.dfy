/** The search-engine files (src/routes/seo.ts): the site base URL, the
    robots.txt body and the Sitemaps 0.9 `urlset` document, without the
    request handling around them. */
module Seo {
  import opened Wrappers
  import opened Text

  // ---------------------------------------------------------------------
  // Site base
  // ---------------------------------------------------------------------

  const DefaultOrigin: string := "http://localhost:5173"

  /** The configured origin, or the default when it is unset or empty
      (`FRONTEND_ORIGIN || ...`). */
  function Origin(env: Option<string>): (r: string)
    ensures r != ""
    ensures env.Some? && env.value != "" ==> r == env.value
  {
    if env.Some? && env.value != "" then env.value else DefaultOrigin
  }

  /** `baseUrl` (and the controller's identical `siteBase`): the origin with
      one trailing `/` removed. */
  function SiteBase(env: Option<string>): (r: string)
    ensures EndsWith(Origin(env), "/") ==> r + "/" == Origin(env)
    ensures !EndsWith(Origin(env), "/") ==> r == Origin(env)
  {
    var o := Origin(env);
    if o[|o| - 1] == '/' then o[..|o| - 1] else o
  }

  /** Only one slash goes: an origin ending in two keeps one of them. */
  lemma SiteBaseStripsOne(s: string)
    ensures SiteBase(Some(s + "//")) == s + "/"
  {
    assert (s + "//")[..|s| + 1] == s + "/";
  }

  /** Default and explicit origins without a trailing slash are used as they are. */
  lemma SiteBaseOfDefault()
    ensures SiteBase(None) == DefaultOrigin
    ensures SiteBase(Some("")) == DefaultOrigin
  {
    assert DefaultOrigin[|DefaultOrigin| - 1] == '3';
  }

  // ---------------------------------------------------------------------
  // robots.txt
  // ---------------------------------------------------------------------

  /** The lines of the robots.txt body. */
  function RobotsLines(site: string): (r: seq<string>)
    ensures |r| == 8
  {
    ["User-agent: *", "Allow: /", "Disallow: /admin/", "Disallow: /admin/login",
     "Disallow: /admin/dashboard", "", "Sitemap: " + site + "/sitemap.xml", ""]
  }

  /** The robots.txt body: the lines joined by line breaks. */
  function RobotsTxt(site: string): string {
    Join(RobotsLines(site), "\n")
  }

  /** The body closes with the sitemap line and an empty line after it. */
  lemma RobotsEnding(site: string)
    ensures EndsWith(RobotsTxt(site), "Sitemap: " + site + "/sitemap.xml\n")
  {
    var ls := RobotsLines(site);
    var tail := "Sitemap: " + site + "/sitemap.xml" + "\n" + "";
    assert Join(ls[6..], "\n") == tail by {
      assert ls[6..][1..] == [""];
    }
    JoinSuffix(ls, "\n", 6);
    assert tail == "Sitemap: " + site + "/sitemap.xml\n";
  }

  /** Joining ends with the join of the last items, after a separator. */
  lemma {:induction false} JoinSuffix(ls: seq<string>, sep: string, k: nat)
    requires 1 <= k < |ls|
    ensures EndsWith(Join(ls, sep), sep + Join(ls[k..], sep))
  {
    var rest := ls[1..];
    assert Join(ls, sep) == ls[0] + sep + Join(rest, sep);
    if k > 1 {
      JoinSuffix(rest, sep, k - 1);
      assert rest[k - 1..] == ls[k..];
    }
  }

  /** Reading the body line by line gives the lines back, when the site
      contains no line break. */
  lemma RobotsLinesRoundTrip(site: string)
    requires NoneIn(site, {'\n'})
    ensures Split(RobotsTxt(site), {'\n'}) == RobotsLines(site)
  {
    var ls := RobotsLines(site);
    var line := "Sitemap: " + site + "/sitemap.xml";
    assert forall i :: 0 <= i < |line| ==> line[i] != '\n' by {
      forall i | 0 <= i < |line| ensures line[i] != '\n' {
        if i >= 9 + |site| {
          assert line[i] == "/sitemap.xml"[i - 9 - |site|];
        } else if i >= 9 {
          assert line[i] == site[i - 9];
        }
      }
    }
    SplitOfJoin(ls, '\n', {'\n'});
  }
  // ---------------------------------------------------------------------
  // Sitemap entries
  // ---------------------------------------------------------------------

  /** One `<url>` entry. The optional fields hold "" when absent (the
      serialiser tests them for truthiness). */
  datatype SitemapUrl = SitemapUrl(loc: string, lastmod: string, changefreq: string, priority: string)

  /** The fixed pages of the site, listed before the properties. */
  function StaticUrls(site: string): (r: seq<SitemapUrl>)
    ensures |r| == 6
    ensures forall k :: 0 <= k < 6 ==> r[k].lastmod == "" && StartsWith(r[k].loc, site + "/")
  {
    [SitemapUrl(site + "/", "", "weekly", "0.9"),
     SitemapUrl(site + "/campos", "", "weekly", "0.8"),
     SitemapUrl(site + "/comprar", "", "weekly", "0.8"),
     SitemapUrl(site + "/alquilar", "", "weekly", "0.8"),
     SitemapUrl(site + "/nosotros", "", "monthly", "0.6"),
     SitemapUrl(site + "/publicar", "", "monthly", "0.6")]
  }

  /** The fields of a property row the sitemap reads. Timestamps are
      milliseconds since the epoch. */
  datatype PropRow = PropRow(id: string, slug: string, updatedAt: Option<int>, createdAt: Option<int>)

  /** The day written into `<lastmod>`: from the update time, else the
      creation time, "" when there is neither or `fmtDate` gives no day.
      `fmtDate` stands for `fmtDate` (`toISOString` cut at the "T"). */
  function Lastmod(p: PropRow, fmtDate: int -> Option<string>): (r: string)
    ensures p.updatedAt.Some? ==> r == fmtDate(p.updatedAt.value).GetOr("")
    ensures p.updatedAt.None? && p.createdAt.Some? ==> r == fmtDate(p.createdAt.value).GetOr("")
    ensures p.updatedAt.None? && p.createdAt.None? ==> r == ""
  {
    var last := if p.updatedAt.Some? then p.updatedAt else p.createdAt;
    match last
    case None => ""
    case Some(t) => fmtDate(t).GetOr("")
  }

  /** A property's public address: `/<slug>` follows the id only when the
      slug is not empty. */
  function PropertyLoc(site: string, id: string, slug: string): string {
    site + "/properties/" + id + (if slug != "" then "/" + slug else "")
  }

  /** The entry of one property, refreshed weekly at priority 0.7. */
  function PropUrl(site: string, p: PropRow, fmtDate: int -> Option<string>): (r: SitemapUrl)
    ensures r.loc == PropertyLoc(site, p.id, p.slug)
    ensures r.lastmod == Lastmod(p, fmtDate)
    ensures r.changefreq == "weekly" && r.priority == "0.7"
  {
    SitemapUrl(PropertyLoc(site, p.id, p.slug), Lastmod(p, fmtDate), "weekly", "0.7")
  }

  /** All entries: the fixed pages, then one per property row in the order
      of the rows. */
  function Entries(site: string, props: seq<PropRow>, fmtDate: int -> Option<string>): (r: seq<SitemapUrl>)
    ensures |r| == 6 + |props|
    ensures r[..6] == StaticUrls(site)
    ensures forall k :: 0 <= k < |props| ==> r[6 + k] == PropUrl(site, props[k], fmtDate)
  {
    StaticUrls(site) + seq(|props|, k requires 0 <= k < |props| => PropUrl(site, props[k], fmtDate))
  }

  // ---------------------------------------------------------------------
  // XML serialisation
  // ---------------------------------------------------------------------

  /** `<name>value</name>`. */
  function Element(name: string, value: string): string {
    "<" + name + ">" + value + "</" + name + ">"
  }

  /** An optional element: nothing when the value is empty. */
  function Tag(name: string, value: string): string {
    if value == "" then "" else Element(name, value)
  }

  /** One entry: the location, then the optional `lastmod`, `changefreq`
      and `priority` elements in that order. */
  function UrlXml(u: SitemapUrl): string {
    "<url>" + Element("loc", u.loc) + Tag("lastmod", u.lastmod)
    + Tag("changefreq", u.changefreq) + Tag("priority", u.priority) + "</url>"
  }

  /** The entries one after another, with nothing between them. */
  function UrlSet(us: seq<SitemapUrl>): string {
    if us == [] then "" else UrlXml(us[0]) + UrlSet(us[1..])
  }

  const Prolog: string := "<?xml version=\"1.0\" encoding=\"UTF-8\"?>"
  const UrlSetOpen: string := "<urlset xmlns=\"http://www.sitemaps.org/schemas/sitemap/0.9\">"
  const UrlSetClose: string := "</urlset>"

  /** The sitemap document. */
  function SitemapXml(site: string, props: seq<PropRow>, fmtDate: int -> Option<string>): string {
    Prolog + UrlSetOpen + UrlSet(Entries(site, props, fmtDate)) + UrlSetClose
  }

  // ---------------------------------------------------------------------
  // Reading a sitemap back
  // ---------------------------------------------------------------------

  /** Reads `<name>text</name>` from the front of `s`: the text and what follows. */
  function ReadElement(name: string, s: string): (r: Option<(string, string)>)
    ensures r.Some? ==> |r.value.1| < |s|
  {
    var open := "<" + name + ">";
    var close := "</" + name + ">";
    if !StartsWith(s, open) then None
    else
      var body := s[|open|..];
      var v := TakeUntil(body, '<');
      var after := body[|v|..];
      if StartsWith(after, close) then Some((v, after[|close|..])) else None
  }

  /** Reads an optional element: "" and the input unchanged when `s` does
      not open one. */
  function ReadOptional(name: string, s: string): (r: Option<(string, string)>)
    ensures r.Some? ==> |r.value.1| <= |s|
  {
    if StartsWith(s, "<" + name + ">") then ReadElement(name, s) else Some(("", s))
  }

  /** Reads one `<url>` entry from the front of `s`. */
  function ReadUrl(s: string): (r: Option<(SitemapUrl, string)>)
    ensures r.Some? ==> |r.value.1| < |s|
  {
    if !StartsWith(s, "<url>") then None
    else
      match ReadElement("loc", s[5..])
      case None => None
      case Some((loc, s1)) =>
        match ReadOptional("lastmod", s1)
        case None => None
        case Some((lastmod, s2)) =>
          match ReadOptional("changefreq", s2)
          case None => None
          case Some((changefreq, s3)) =>
            match ReadOptional("priority", s3)
            case None => None
            case Some((priority, s4)) =>
              if StartsWith(s4, "</url>") then Some((SitemapUrl(loc, lastmod, changefreq, priority), s4[6..]))
              else None
  }

  /** Reads entries for as long as one opens. */
  function ReadUrls(s: string): (r: Option<(seq<SitemapUrl>, string)>)
    decreases |s|
  {
    if !StartsWith(s, "<url>") then Some(([], s))
    else
      match ReadUrl(s)
      case None => None
      case Some((u, rest)) =>
        match ReadUrls(rest)
        case None => None
        case Some((us, tail)) => Some(([u] + us, tail))
  }

  /** Reads the entries of a sitemap document. */
  function ReadSitemap(doc: string): Option<seq<SitemapUrl>> {
    var head := Prolog + UrlSetOpen;
    if !StartsWith(doc, head) then None
    else
      match ReadUrls(doc[|head|..])
      case None => None
      case Some((us, tail)) => if tail == UrlSetClose then Some(us) else None
  }
  /** No field holds a `<`, so each reads back as text. */
  predicate Clean(u: SitemapUrl) {
    NoneIn(u.loc, {'<'}) && NoneIn(u.lastmod, {'<'}) && NoneIn(u.changefreq, {'<'}) && NoneIn(u.priority, {'<'})
  }

  lemma ReadElementOf(name: string, v: string, rest: string)
    requires NoneIn(v, {'<'})
    ensures ReadElement(name, Element(name, v) + rest) == Some((v, rest))
  {
    var open, close := "<" + name + ">", "</" + name + ">";
    var s := Element(name, v) + rest;
    assert s == open + (v + (close + rest));
    assert s[..|open|] == open;
    assert s[|open|..] == v + (close + rest);
    TakeUntilOf(v, '<', close + rest);
    assert (v + (close + rest))[|v|..] == close + rest;
    assert (close + rest)[..|close|] == close;
    assert (close + rest)[|close|..] == rest;
  }

  /** What follows an optional element that was left out must not open one
      of the same name. */
  lemma ReadOptionalOf(name: string, v: string, rest: string)
    requires NoneIn(v, {'<'})
    requires v == "" ==> !StartsWith(rest, "<" + name + ">")
    ensures ReadOptional(name, Tag(name, v) + rest) == Some((v, rest))
  {
    if v == "" {
      assert Tag(name, v) + rest == rest;
    } else {
      var s := Element(name, v) + rest;
      assert s == "<" + name + ">" + (v + "</" + name + ">" + rest);
      ReadElementOf(name, v, rest);
    }
  }

  /** A text whose second character differs from the name's first does not
      open that element. */
  lemma NotOpening(name: string, t: string)
    requires name != "" && |t| >= 2 && t[1] != name[0]
    ensures !StartsWith(t, "<" + name + ">")
  {
  }

  /** The second character of an optional element followed by a tag. */
  lemma SecondChar(name: string, v: string, x: string)
    requires name != "" && |x| >= 2
    ensures |Tag(name, v) + x| >= 2
    ensures (Tag(name, v) + x)[1] == if v == "" then x[1] else name[0]
  {
    if v == "" {
      assert Tag(name, v) + x == x;
    } else {
      assert (Tag(name, v) + x)[1] == ("<" + name)[1];
    }
  }

  /** How `ReadUrl` chains its steps, stated on the intermediate texts. */
  lemma ReadUrlSteps(s: string, u: SitemapUrl, t1: string, t2: string, t3: string, end: string, more: string)
    requires StartsWith(s, "<url>")
    requires ReadElement("loc", s[5..]) == Some((u.loc, t1))
    requires ReadOptional("lastmod", t1) == Some((u.lastmod, t2))
    requires ReadOptional("changefreq", t2) == Some((u.changefreq, t3))
    requires ReadOptional("priority", t3) == Some((u.priority, end))
    requires StartsWith(end, "</url>") && end[6..] == more
    ensures ReadUrl(s) == Some((u, more))
  {
  }

  /** The optional elements of an entry, each followed by the next or by
      the closing tag. */
  lemma ReadOptionalsOf(u: SitemapUrl, t1: string, t2: string, t3: string, end: string)
    requires NoneIn(u.lastmod, {'<'}) && NoneIn(u.changefreq, {'<'}) && NoneIn(u.priority, {'<'})
    requires |end| >= 2 && end[1] == '/'
    requires t3 == Tag("priority", u.priority) + end
    requires t2 == Tag("changefreq", u.changefreq) + t3
    requires t1 == Tag("lastmod", u.lastmod) + t2
    ensures ReadOptional("lastmod", t1) == Some((u.lastmod, t2))
    ensures ReadOptional("changefreq", t2) == Some((u.changefreq, t3))
    ensures ReadOptional("priority", t3) == Some((u.priority, end))
  {
    SecondChar("priority", u.priority, end);
    SecondChar("changefreq", u.changefreq, t3);
    NotOpening("lastmod", t2);
    NotOpening("changefreq", t3);
    NotOpening("priority", end);
    ReadOptionalOf("lastmod", u.lastmod, t2);
    ReadOptionalOf("changefreq", u.changefreq, t3);
    ReadOptionalOf("priority", u.priority, end);
  }

  /** Seven pieces joined from the left equal the same pieces joined from
      the right. */
  lemma Regroup<T>(a: seq<T>, b: seq<T>, c: seq<T>, d: seq<T>, e: seq<T>, f: seq<T>, g: seq<T>)
    ensures a + b + c + d + e + f + g == a + (b + (c + (d + (e + (f + g)))))
  {
    assert a + b + c + d + e + f + g == a + (b + c + d + e + f + g);
    assert b + c + d + e + f + g == b + (c + d + e + f + g);
    assert c + d + e + f + g == c + (d + (e + (f + g)));
  }

  /** An entry followed by more text, grouped from the right. */
  lemma UrlXmlThen(u: SitemapUrl, more: string)
    ensures UrlXml(u) + more
            == "<url>" + (Element("loc", u.loc) + (Tag("lastmod", u.lastmod) + (Tag("changefreq", u.changefreq)
               + (Tag("priority", u.priority) + ("</url>" + more)))))
  {
    Regroup("<url>", Element("loc", u.loc), Tag("lastmod", u.lastmod), Tag("changefreq", u.changefreq),
            Tag("priority", u.priority), "</url>", more);
  }

  /** An entry, given as the texts that follow each of its elements, reads
      back as itself. */
  lemma ReadUrlOfParts(u: SitemapUrl, t1: string, t2: string, t3: string, end: string, more: string)
    requires Clean(u)
    requires end == "</url>" + more
    requires t3 == Tag("priority", u.priority) + end
    requires t2 == Tag("changefreq", u.changefreq) + t3
    requires t1 == Tag("lastmod", u.lastmod) + t2
    ensures ReadUrl("<url>" + (Element("loc", u.loc) + t1)) == Some((u, more))
  {
    var e := Element("loc", u.loc) + t1;
    ReadElementOf("loc", u.loc, t1);
    StartsWithConcat("<url>", e);
    StartsWithConcat("</url>", more);
    ReadOptionalsOf(u, t1, t2, t3, end);
    ReadUrlSteps("<url>" + e, u, t1, t2, t3, end, more);
  }

  /** An entry reads back as itself, and the reading stops right after it. */
  lemma ReadUrlOf(u: SitemapUrl, more: string)
    requires Clean(u)
    ensures ReadUrl(UrlXml(u) + more) == Some((u, more))
  {
    var end := "</url>" + more;
    var t3 := Tag("priority", u.priority) + end;
    var t2 := Tag("changefreq", u.changefreq) + t3;
    var t1 := Tag("lastmod", u.lastmod) + t2;
    ReadUrlOfParts(u, t1, t2, t3, end, more);
    UrlXmlThen(u, more);
  }

  /** How `ReadUrls` goes on after one entry, stated on the texts. */
  lemma ReadUrlsStep(s: string, u: SitemapUrl, more: string, us: seq<SitemapUrl>, tail: string)
    requires StartsWith(s, "<url>")
    requires ReadUrl(s) == Some((u, more))
    requires ReadUrls(more) == Some((us, tail))
    ensures ReadUrls(s) == Some(([u] + us, tail))
  {
  }

  /** Every entry opens with `<url>`. */
  lemma UrlXmlOpens(u: SitemapUrl, more: string)
    ensures StartsWith(UrlXml(u) + more, "<url>")
  {
    UrlXmlThen(u, more);
    StartsWithConcat("<url>", Element("loc", u.loc) + (Tag("lastmod", u.lastmod) + (Tag("changefreq", u.changefreq)
               + (Tag("priority", u.priority) + ("</url>" + more)))));
  }

  /** Every entry of the list is free of `<`. */
  predicate AllClean(us: seq<SitemapUrl>) {
    forall k :: 0 <= k < |us| ==> Clean(us[k])
  }

  /** A run of entries reads back as the same list, up to a text that opens
      no further entry. */
  lemma {:induction false} ReadUrlsOf(us: seq<SitemapUrl>, tail: string)
    requires AllClean(us)
    requires !StartsWith(tail, "<url>")
    ensures ReadUrls(UrlSet(us) + tail) == Some((us, tail))
  {
    if us == [] {
      assert UrlSet(us) + tail == tail;
    } else {
      var u, rest := us[0], us[1..];
      assert Clean(u);
      assert AllClean(rest) by {
        forall k | 0 <= k < |rest| ensures Clean(rest[k]) {
          assert rest[k] == us[k + 1];
        }
      }
      var more := UrlSet(rest) + tail;
      assert UrlSet(us) + tail == UrlXml(u) + more;
      UrlXmlOpens(u, more);
      ReadUrlOf(u, more);
      ReadUrlsOf(rest, tail);
      ReadUrlsStep(UrlXml(u) + more, u, more, rest, tail);
      assert [u] + rest == us;
    }
  }

  /** The page paths of the fixed entries hold no `<`. */
  lemma PagesClean()
    ensures NoneIn("/", {'<'}) && NoneIn("/campos", {'<'}) && NoneIn("/comprar", {'<'})
    ensures NoneIn("/alquilar", {'<'}) && NoneIn("/nosotros", {'<'}) && NoneIn("/publicar", {'<'})
  {
  }

  /** The refresh rates and priorities of the fixed entries hold no `<`. */
  lemma RatesClean()
    ensures NoneIn("", {'<'}) && NoneIn("weekly", {'<'}) && NoneIn("monthly", {'<'})
    ensures NoneIn("0.9", {'<'}) && NoneIn("0.8", {'<'}) && NoneIn("0.6", {'<'})
  {
  }

  /** A fixed entry is free of `<` when its site and its parts are. */
  lemma PageClean(site: string, page: string, freq: string, priority: string)
    requires NoneIn(site, {'<'}) && NoneIn(page, {'<'})
    requires NoneIn(freq, {'<'}) && NoneIn(priority, {'<'})
    ensures Clean(SitemapUrl(site + page, "", freq, priority))
  {
    NoneInConcat(site, page, {'<'});
  }

  /** The fixed entries are free of `<` when the site is. */
  lemma StaticUrlsClean(site: string)
    requires NoneIn(site, {'<'})
    ensures AllClean(StaticUrls(site))
  {
    PagesClean();
    RatesClean();
    PageClean(site, "/", "weekly", "0.9");
    PageClean(site, "/campos", "weekly", "0.8");
    PageClean(site, "/comprar", "weekly", "0.8");
    PageClean(site, "/alquilar", "weekly", "0.8");
    PageClean(site, "/nosotros", "monthly", "0.6");
    PageClean(site, "/publicar", "monthly", "0.6");
  }

  /** A property's entry is free of `<` when its site, id, slug and day are. */
  lemma PropUrlClean(site: string, p: PropRow, fmtDate: int -> Option<string>)
    requires NoneIn(site, {'<'}) && NoneIn(p.id, {'<'}) && NoneIn(p.slug, {'<'})
    requires NoneIn(Lastmod(p, fmtDate), {'<'})
    ensures Clean(PropUrl(site, p, fmtDate))
  {
    NoneInConcat(site, "/properties/", {'<'});
    NoneInConcat(site + "/properties/", p.id, {'<'});
    if p.slug != "" {
      NoneInConcat("/", p.slug, {'<'});
      NoneInConcat(site + "/properties/" + p.id, "/" + p.slug, {'<'});
    } else {
      assert PropertyLoc(site, p.id, p.slug) == site + "/properties/" + p.id;
    }
  }

  /** Every field of every entry is free of `<` when the site, the ids, the
      slugs and the written days are. */
  lemma EntriesClean(site: string, props: seq<PropRow>, fmtDate: int -> Option<string>)
    requires NoneIn(site, {'<'})
    requires forall k :: 0 <= k < |props| ==>
               NoneIn(props[k].id, {'<'}) && NoneIn(props[k].slug, {'<'}) && NoneIn(Lastmod(props[k], fmtDate), {'<'})
    ensures AllClean(Entries(site, props, fmtDate))
  {
    var es := Entries(site, props, fmtDate);
    StaticUrlsClean(site);
    forall j | 0 <= j < |es|
      ensures Clean(es[j])
    {
      if j < 6 {
        assert es[j] == es[..6][j];
      } else {
        PropUrlClean(site, props[j - 6], fmtDate);
      }
    }
  }

  /** The closing tag of the document opens no entry. */
  lemma CloseOpensNoUrl()
    ensures !StartsWith(UrlSetClose, "<url>")
  {
    assert UrlSetClose[1] == '/';
  }

  /** Four pieces joined from the left equal the first two followed by the
      last two. */
  lemma Regroup4<T>(a: seq<T>, b: seq<T>, c: seq<T>, d: seq<T>)
    ensures a + b + c + d == (a + b) + (c + d)
  {
  }

  /** The document reads back as its entries when they read back up to the
      closing tag. */
  lemma ReadSitemapOf(site: string, props: seq<PropRow>, fmtDate: int -> Option<string>)
    requires ReadUrls(UrlSet(Entries(site, props, fmtDate)) + UrlSetClose)
             == Some((Entries(site, props, fmtDate), UrlSetClose))
    ensures ReadSitemap(SitemapXml(site, props, fmtDate)) == Some(Entries(site, props, fmtDate))
  {
    var body := UrlSet(Entries(site, props, fmtDate)) + UrlSetClose;
    Regroup4(Prolog, UrlSetOpen, UrlSet(Entries(site, props, fmtDate)), UrlSetClose);
    StartsWithConcat(Prolog + UrlSetOpen, body);
  }

  /** Reading the sitemap document gives back exactly its entries: the six
      fixed pages, then one per property row, in order. */
  lemma SitemapRoundTrip(site: string, props: seq<PropRow>, fmtDate: int -> Option<string>)
    requires NoneIn(site, {'<'})
    requires forall k :: 0 <= k < |props| ==>
               NoneIn(props[k].id, {'<'}) && NoneIn(props[k].slug, {'<'}) && NoneIn(Lastmod(props[k], fmtDate), {'<'})
    ensures ReadSitemap(SitemapXml(site, props, fmtDate)) == Some(Entries(site, props, fmtDate))
  {
    var es := Entries(site, props, fmtDate);
    EntriesClean(site, props, fmtDate);
    CloseOpensNoUrl();
    ReadUrlsOf(es, UrlSetClose);
    ReadSitemapOf(site, props, fmtDate);
  }
}

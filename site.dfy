/**
 * The data handling of the dream-interpretation site generator: linking each
 * dream to the dreams it lists as related, grouping dreams by category for
 * the index page, and assembling sitemap.xml. Parsing the JSON, rendering the
 * templates, writing files and reading the clock are left to the caller; the
 * build date arrives as the parameter `today`.
 */
module Site {
  import opened Raster

  /**
   * One dream record. The fields read from the JSON never change; the
   * generator adds `relatedData` to the record in place.
   */
  class Dream {
    const id: string
    const category: Option<string>
    const updatedDate: Option<string>
    /** The `related_dreams` list, None when the record has no such key. */
    const relatedIds: Option<seq<string>>
    var relatedData: seq<Dream>

    constructor (id: string, category: Option<string>, updatedDate: Option<string>, relatedIds: Option<seq<string>>)
      ensures this.id == id && this.category == category && this.updatedDate == updatedDate
      ensures this.relatedIds == relatedIds && relatedData == []
    {
      this.id := id;
      this.category := category;
      this.updatedDate := updatedDate;
      this.relatedIds := relatedIds;
      relatedData := [];
    }
  }

  // -------------------------------------------------------------------------
  // load_dreams: the id index and the related-dream links
  // -------------------------------------------------------------------------

  /** The dictionary {d.id: d for d in dreams}: built left to right, so a later dream replaces an earlier one. */
  function IndexById(dreams: seq<Dream>): map<string, Dream>
  {
    if |dreams| == 0 then map[]
    else IndexById(dreams[..|dreams| - 1])[dreams[|dreams| - 1].id := dreams[|dreams| - 1]]
  }

  /**
   * The index holds exactly the ids of the dreams, maps each id to a dream
   * with that id, and maps it to the last dream that carries it.
   */
  lemma {:induction false} IndexByIdLastWins(dreams: seq<Dream>)
    ensures forall k :: k in IndexById(dreams) <==> exists i :: 0 <= i < |dreams| && dreams[i].id == k
    ensures forall k | k in IndexById(dreams) :: IndexById(dreams)[k].id == k
    ensures forall i | 0 <= i < |dreams| ::
              (forall j | i < j < |dreams| :: dreams[j].id != dreams[i].id) ==> IndexById(dreams)[dreams[i].id] == dreams[i]
  {
    if |dreams| > 0 {
      var init := dreams[..|dreams| - 1];
      IndexByIdLastWins(init);
      forall k ensures k in IndexById(dreams) <==> exists i :: 0 <= i < |dreams| && dreams[i].id == k {
        if k in IndexById(init) {
          var i :| 0 <= i < |init| && init[i].id == k;
          assert dreams[i].id == k;
        }
        if exists i :: 0 <= i < |dreams| && dreams[i].id == k {
          var i :| 0 <= i < |dreams| && dreams[i].id == k;
          if i < |init| {
            assert init[i].id == k;
          }
        }
      }
    }
  }

  /** The ids of `ids`, in order, that the index knows. */
  function KnownIds(ids: seq<string>, byId: map<string, Dream>): (known: seq<string>)
    ensures |known| <= |ids|
    ensures forall x :: x in known <==> x in ids && x in byId
  {
    if |ids| == 0 then []
    else (if ids[0] in byId then [ids[0]] else []) + KnownIds(ids[1..], byId)
  }

  /** The comprehension [by_id[rid] for rid in ids if rid in by_id]. */
  function Resolve(ids: seq<string>, byId: map<string, Dream>): seq<Dream>
  {
    if |ids| == 0 then []
    else (if ids[0] in byId then [byId[ids[0]]] else []) + Resolve(ids[1..], byId)
  }

  /** The resolved list is the index's dreams for the known ids, one for one and in the same order. */
  lemma {:induction false} ResolveKnown(ids: seq<string>, byId: map<string, Dream>)
    ensures |Resolve(ids, byId)| == |KnownIds(ids, byId)|
    ensures forall i | 0 <= i < |Resolve(ids, byId)| :: KnownIds(ids, byId)[i] in byId
    ensures forall i | 0 <= i < |Resolve(ids, byId)| :: Resolve(ids, byId)[i] == byId[KnownIds(ids, byId)[i]]
  {
    if |ids| > 0 {
      ResolveKnown(ids[1..], byId);
    }
  }

  /** Filtering keeps the order: the known ids of a + b are those of a followed by those of b. */
  lemma {:induction false} KnownIdsAppend(a: seq<string>, b: seq<string>, byId: map<string, Dream>)
    ensures KnownIds(a + b, byId) == KnownIds(a, byId) + KnownIds(b, byId)
  {
    if |a| == 0 {
      assert a + b == b;
    } else {
      assert (a + b)[0] == a[0];
      assert (a + b)[1..] == a[1..] + b;
      KnownIdsAppend(a[1..], b, byId);
    }
  }

  /** When every id is known nothing is dropped; when none is, the list is empty. */
  lemma {:induction false} KnownIdsExtremes(ids: seq<string>, byId: map<string, Dream>)
    ensures (forall i | 0 <= i < |ids| :: ids[i] in byId) ==> KnownIds(ids, byId) == ids
    ensures (forall i | 0 <= i < |ids| :: ids[i] !in byId) ==> KnownIds(ids, byId) == []
  {
    if |ids| > 0 {
      KnownIdsExtremes(ids[1..], byId);
      assert forall i | 0 <= i < |ids| - 1 :: ids[1..][i] == ids[i + 1];
    }
  }

  /** dream.get("related_dreams", []) for a dream whose list is absent or a list. */
  function RelatedIds(d: Dream): seq<string>
  {
    if d.relatedIds.Some? then d.relatedIds.value else []
  }

  /**
   * load_dreams after parsing: index the dreams by id, then give every dream
   * its related dreams. The list itself comes back unchanged.
   */
  method LoadDreams(dreams: seq<Dream>) returns (loaded: seq<Dream>, byId: map<string, Dream>)
    modifies set d | d in dreams
    ensures loaded == dreams && byId == IndexById(dreams)
    ensures forall d | d in dreams :: d.relatedData == Resolve(RelatedIds(d), byId)
  {
    byId := IndexById(dreams);
    var i := 0;
    while i < |dreams|
      invariant 0 <= i <= |dreams|
      invariant forall j | 0 <= j < i :: dreams[j].relatedData == Resolve(RelatedIds(dreams[j]), byId)
    {
      var dream := dreams[i];
      dream.relatedData := Resolve(RelatedIds(dream), byId);
      i := i + 1;
    }
    loaded := dreams;
  }

  // -------------------------------------------------------------------------
  // build_index_page: dreams by category
  // -------------------------------------------------------------------------

  const DefaultCategory: string := "기타"

  /** dream.get("category", "기타") for a dream whose category is absent or a string. */
  function CategoryOf(d: Dream): string
  {
    if d.category.Some? then d.category.value else DefaultCategory
  }

  /** The category keys in the order setdefault first inserts them. */
  function CategoryOrder(dreams: seq<Dream>): seq<string>
  {
    if |dreams| == 0 then []
    else
      var order := CategoryOrder(dreams[..|dreams| - 1]);
      var c := CategoryOf(dreams[|dreams| - 1]);
      if c in order then order else order + [c]
  }

  /** The dreams of category c, in input order. */
  function Members(dreams: seq<Dream>, c: string): seq<Dream>
  {
    if |dreams| == 0 then []
    else Members(dreams[..|dreams| - 1], c) + (if CategoryOf(dreams[|dreams| - 1]) == c then [dreams[|dreams| - 1]] else [])
  }

  predicate Distinct(keys: seq<string>)
  {
    forall i, j | 0 <= i < j < |keys| :: keys[i] != keys[j]
  }

  /** The keys are the dreams' categories, each once. */
  lemma {:induction false} CategoryOrderKeys(dreams: seq<Dream>)
    ensures Distinct(CategoryOrder(dreams))
    ensures forall c :: c in CategoryOrder(dreams) <==> exists i :: 0 <= i < |dreams| && CategoryOf(dreams[i]) == c
  {
    if |dreams| > 0 {
      var init := dreams[..|dreams| - 1];
      CategoryOrderKeys(init);
      forall c ensures c in CategoryOrder(dreams) <==> exists i :: 0 <= i < |dreams| && CategoryOf(dreams[i]) == c {
        if c in CategoryOrder(init) {
          var i :| 0 <= i < |init| && CategoryOf(init[i]) == c;
          assert CategoryOf(dreams[i]) == c;
        }
        if exists i :: 0 <= i < |dreams| && CategoryOf(dreams[i]) == c {
          var i :| 0 <= i < |dreams| && CategoryOf(dreams[i]) == c;
          if i < |init| {
            assert CategoryOf(init[i]) == c;
          }
        }
      }
    }
  }

  /** A dream is in the list of category c exactly when c is its category: every dream lands in one list. */
  lemma {:induction false} MembersExactly(dreams: seq<Dream>, c: string)
    ensures forall d :: d in Members(dreams, c) <==> d in dreams && CategoryOf(d) == c
  {
    if |dreams| > 0 {
      var init := dreams[..|dreams| - 1];
      MembersExactly(init, c);
      assert dreams == init + [dreams[|dreams| - 1]];
    }
  }

  lemma {:induction false} NoMembers(dreams: seq<Dream>, c: string)
    requires forall i | 0 <= i < |dreams| :: CategoryOf(dreams[i]) != c
    ensures Members(dreams, c) == []
  {
    if |dreams| > 0 {
      NoMembers(dreams[..|dreams| - 1], c);
    }
  }

  /** Grouping keeps input order: the list for a + b is the list for a followed by the list for b. */
  lemma {:induction false} MembersAppend(a: seq<Dream>, b: seq<Dream>, c: string)
    ensures Members(a + b, c) == Members(a, c) + Members(b, c)
    decreases |b|
  {
    if |b| == 0 {
      assert a + b == a;
    } else {
      var init := b[..|b| - 1];
      assert (a + b)[..|a + b| - 1] == a + init;
      MembersAppend(a, init, c);
    }
  }

  /** Sum of the lengths of the lists of `keys`. */
  function TotalSize(keys: seq<string>, dreams: seq<Dream>): nat
  {
    if |keys| == 0 then 0 else |Members(dreams, keys[0])| + TotalSize(keys[1..], dreams)
  }

  function Occurrences(keys: seq<string>, c: string): nat
  {
    if |keys| == 0 then 0 else (if keys[0] == c then 1 else 0) + Occurrences(keys[1..], c)
  }

  lemma {:induction false} TotalSizeSnoc(keys: seq<string>, dreams: seq<Dream>, d: Dream)
    ensures TotalSize(keys, dreams + [d]) == TotalSize(keys, dreams) + Occurrences(keys, CategoryOf(d))
  {
    if |keys| > 0 {
      TotalSizeSnoc(keys[1..], dreams, d);
      assert (dreams + [d])[..|dreams + [d]| - 1] == dreams;
    }
  }

  lemma {:induction false} TotalSizeAppendKey(keys: seq<string>, c: string, dreams: seq<Dream>)
    ensures TotalSize(keys + [c], dreams) == TotalSize(keys, dreams) + |Members(dreams, c)|
  {
    if |keys| > 0 {
      assert (keys + [c])[1..] == keys[1..] + [c];
      TotalSizeAppendKey(keys[1..], c, dreams);
    }
  }

  lemma {:induction false} OccurrencesDistinct(keys: seq<string>, c: string)
    requires Distinct(keys)
    ensures Occurrences(keys, c) == (if c in keys then 1 else 0)
  {
    if |keys| > 0 {
      OccurrencesDistinct(keys[1..], c);
      if keys[0] == c {
        assert c !in keys[1..];
      }
    }
  }

  /** The lists' lengths add up to the number of dreams. */
  lemma {:induction false} GroupSizesSum(dreams: seq<Dream>)
    ensures TotalSize(CategoryOrder(dreams), dreams) == |dreams|
  {
    if |dreams| > 0 {
      var init := dreams[..|dreams| - 1];
      var d := dreams[|dreams| - 1];
      var c := CategoryOf(d);
      var order := CategoryOrder(init);
      GroupSizesSum(init);
      CategoryOrderKeys(init);
      assert dreams == init + [d];
      TotalSizeSnoc(order, init, d);
      OccurrencesDistinct(order, c);
      if c !in order {
        TotalSizeAppendKey(order, c, dreams);
        NoMembers(init, c);
      }
    }
  }

  /**
   * The category loop of build_index_page: `order` is the key order of the
   * dictionary it builds, `categories` the dictionary.
   */
  method GroupByCategory(dreams: seq<Dream>) returns (order: seq<string>, categories: map<string, seq<Dream>>)
    ensures order == CategoryOrder(dreams)
    ensures forall c :: c in categories <==> c in order
    ensures forall c | c in categories :: categories[c] == Members(dreams, c)
  {
    order, categories := [], map[];
    var i := 0;
    while i < |dreams|
      invariant 0 <= i <= |dreams|
      invariant order == CategoryOrder(dreams[..i])
      invariant forall c :: c in categories <==> c in order
      invariant forall c | c in categories :: categories[c] == Members(dreams[..i], c)
    {
      var c := CategoryOf(dreams[i]);
      assert dreams[..i + 1][..i] == dreams[..i];
      if c !in categories {
        CategoryOrderKeys(dreams[..i]);
        NoMembers(dreams[..i], c);
        categories := categories[c := []];
        order := order + [c];
      }
      categories := categories[c := categories[c] + [dreams[i]]];
      i := i + 1;
    }
    assert dreams[..i] == dreams;
  }

  // -------------------------------------------------------------------------
  // build_sitemap
  // -------------------------------------------------------------------------

  // The longer constants are written as short pieces so that the verifier can
  // inspect their characters.
  const SiteUrl: string := "https://" + "yourdomain" + ".com"
  const XmlDeclaration: string := "<?xml" + " version" + "=\"1.0\"" + " encoding" + "=\"UTF-8\"" + "?>"
  const UrlsetOpen: string :=
    "<urlset" + " xmlns=" + "\"http://" + "www." + "sitemaps" + ".org/" + "schemas/" + "sitemap/" + "0.9\">"
  const UrlsetClose: string := "</urlset>"
  const UrlOpen: string := "  <url>"

  /** "\n".join(lines). */
  function Join(lines: seq<string>): string
  {
    if |lines| == 0 then "" else if |lines| == 1 then lines[0] else lines[0] + "\n" + Join(lines[1..])
  }

  /** text.split("\n"): the pieces between newlines, one more than there are newlines. */
  function SplitLines(text: string): (lines: seq<string>)
    ensures |lines| >= 1
  {
    if |text| == 0 then [""]
    else
      var rest := SplitLines(text[1..]);
      if text[0] == '\n' then [""] + rest else [[text[0]] + rest[0]] + rest[1..]
  }

  predicate NoNewline(s: string)
  {
    '\n' !in s
  }

  predicate SingleLines(lines: seq<string>)
  {
    forall i | 0 <= i < |lines| :: NoNewline(lines[i])
  }

  lemma {:induction false} SplitLine(a: string)
    requires NoNewline(a)
    ensures SplitLines(a) == [a]
  {
    if |a| > 0 {
      assert a[0] in a;
      SplitLine(a[1..]);
      assert [a[0]] + a[1..] == a;
    }
  }

  lemma {:induction false} SplitAfterLine(a: string, b: string)
    requires NoNewline(a)
    ensures SplitLines(a + "\n" + b) == [a] + SplitLines(b)
  {
    if |a| == 0 {
      assert (a + "\n" + b)[1..] == b;
    } else {
      assert (a + "\n" + b)[1..] == a[1..] + "\n" + b;
      assert a[0] in a;
      SplitAfterLine(a[1..], b);
      assert [a[0]] + a[1..] == a;
    }
  }

  /** Splitting on newlines undoes joining lines that hold no newline. */
  lemma {:induction false} SplitJoin(lines: seq<string>)
    requires |lines| >= 1 && SingleLines(lines)
    ensures SplitLines(Join(lines)) == lines
  {
    if |lines| == 1 {
      SplitLine(lines[0]);
    } else {
      SplitJoin(lines[1..]);
      SplitAfterLine(lines[0], Join(lines[1..]));
    }
  }

  lemma {:induction false} JoinAppend(a: seq<string>, b: seq<string>)
    requires |a| >= 1 && |b| >= 1
    ensures Join(a + b) == Join(a) + "\n" + Join(b)
  {
    if |a| == 1 {
      assert (a + b)[1..] == b;
    } else {
      assert (a + b)[1..] == a[1..] + b;
      JoinAppend(a[1..], b);
    }
  }

  /** The six lines of one <url> entry. */
  function EntryLines(loc: string, lastmod: string, changefreq: string, priority: string): seq<string>
  {
    [UrlOpen,
     "    <loc>" + loc + "</loc>",
     "    <lastmod>" + lastmod + "</lastmod>",
     "    <changefreq>" + changefreq + "</changefreq>",
     "    <priority>" + priority + "</priority>",
     "  </url>"]
  }

  /** dream.get("updated_date", today) for a dream whose date is absent or a string. */
  function LastMod(d: Dream, today: string): string
  {
    if d.updatedDate.Some? then d.updatedDate.value else today
  }

  function HomeLines(today: string): seq<string>
  {
    EntryLines(SiteUrl + "/", today, "daily", "1.0")
  }

  function DreamLines(d: Dream, today: string): seq<string>
  {
    EntryLines(SiteUrl + "/" + d.id + "/", LastMod(d, today), "weekly", "0.8")
  }

  /** The entries of the dreams, one string each, in input order. */
  function DreamUrls(dreams: seq<Dream>, today: string): seq<string>
  {
    if |dreams| == 0 then []
    else DreamUrls(dreams[..|dreams| - 1], today) + [Join(DreamLines(dreams[|dreams| - 1], today))]
  }

  /** The text of sitemap.xml: the header, the entries joined by newlines, the closing tag. */
  function Sitemap(dreams: seq<Dream>, today: string): string
  {
    XmlDeclaration + "\n" + UrlsetOpen + "\n"
    + Join([Join(HomeLines(today))] + DreamUrls(dreams, today))
    + "\n" + UrlsetClose + "\n"
  }

  /** build_sitemap: collect the entries in a list, then join them between the header and the closing tag. */
  method BuildSitemap(dreams: seq<Dream>, today: string) returns (text: string)
    ensures text == Sitemap(dreams, today)
  {
    var urls := [Join(HomeLines(today))];
    var i := 0;
    while i < |dreams|
      invariant 0 <= i <= |dreams|
      invariant urls == [Join(HomeLines(today))] + DreamUrls(dreams[..i], today)
    {
      assert dreams[..i + 1][..i] == dreams[..i];
      urls := urls + [Join(DreamLines(dreams[i], today))];
      i := i + 1;
    }
    assert dreams[..i] == dreams;
    text := XmlDeclaration + "\n" + UrlsetOpen + "\n" + Join(urls) + "\n" + UrlsetClose + "\n";
  }

  /** The lines of the dreams' entries, six per dream, in input order. */
  function DreamEntryLines(dreams: seq<Dream>, today: string): (lines: seq<string>)
    ensures |lines| == 6 * |dreams|
  {
    if |dreams| == 0 then []
    else DreamEntryLines(dreams[..|dreams| - 1], today) + DreamLines(dreams[|dreams| - 1], today)
  }

  /** The sitemap line by line: declaration, urlset, the home entry, the dream entries, the closing tag, "". */
  function SitemapLines(dreams: seq<Dream>, today: string): seq<string>
  {
    [XmlDeclaration, UrlsetOpen] + HomeLines(today) + DreamEntryLines(dreams, today) + [UrlsetClose, ""]
  }

  lemma {:induction false} EntriesAsLines(dreams: seq<Dream>, today: string)
    ensures Join([Join(HomeLines(today))] + DreamUrls(dreams, today)) == Join(HomeLines(today) + DreamEntryLines(dreams, today))
  {
    if |dreams| == 0 {
      assert HomeLines(today) + DreamEntryLines(dreams, today) == HomeLines(today);
    } else {
      var init := dreams[..|dreams| - 1];
      var last := DreamLines(dreams[|dreams| - 1], today);
      EntriesAsLines(init, today);
      assert [Join(HomeLines(today))] + DreamUrls(dreams, today)
          == ([Join(HomeLines(today))] + DreamUrls(init, today)) + [Join(last)];
      JoinAppend([Join(HomeLines(today))] + DreamUrls(init, today), [Join(last)]);
      assert HomeLines(today) + DreamEntryLines(dreams, today) == (HomeLines(today) + DreamEntryLines(init, today)) + last;
      JoinAppend(HomeLines(today) + DreamEntryLines(init, today), last);
    }
  }

  /** The sitemap text is its lines joined by newlines. */
  lemma SitemapJoinsLines(dreams: seq<Dream>, today: string)
    ensures Sitemap(dreams, today) == Join(SitemapLines(dreams, today))
  {
    var body := HomeLines(today) + DreamEntryLines(dreams, today);
    EntriesAsLines(dreams, today);
    JoinAppend([XmlDeclaration, UrlsetOpen], body);
    JoinAppend([XmlDeclaration, UrlsetOpen] + body, [UrlsetClose, ""]);
    assert SitemapLines(dreams, today) == ([XmlDeclaration, UrlsetOpen] + body) + [UrlsetClose, ""];
  }

  /** No id, modification date or build date holds a newline. */
  predicate PlainFields(dreams: seq<Dream>, today: string)
  {
    NoNewline(today) && forall i | 0 <= i < |dreams| :: NoNewline(dreams[i].id) && NoNewline(LastMod(dreams[i], today))
  }

  lemma {:induction false} SingleLinesAppend(a: seq<string>, b: seq<string>)
    requires SingleLines(a) && SingleLines(b)
    ensures SingleLines(a + b)
  {
    forall i | 0 <= i < |a + b| ensures NoNewline((a + b)[i]) {
      if i >= |a| {
        assert (a + b)[i] == b[i - |a|];
      }
    }
  }

  lemma EntryLinesSingle(loc: string, lastmod: string, changefreq: string, priority: string)
    requires NoNewline(loc) && NoNewline(lastmod) && NoNewline(changefreq) && NoNewline(priority)
    ensures SingleLines(EntryLines(loc, lastmod, changefreq, priority))
  {
    var lines := EntryLines(loc, lastmod, changefreq, priority);
    assert NoNewline("    <loc>") && NoNewline("</loc>");
    assert NoNewline("    <lastmod>") && NoNewline("</lastmod>");
    assert NoNewline("    <changefreq>") && NoNewline("</changefreq>");
    assert NoNewline("    <priority>") && NoNewline("</priority>");
    assert NoNewline(UrlOpen) && NoNewline("  </url>");
    forall i | 0 <= i < |lines| ensures NoNewline(lines[i]) {
      if i == 1 {
        assert lines[1] == "    <loc>" + loc + "</loc>";
      } else if i == 2 {
        assert lines[2] == "    <lastmod>" + lastmod + "</lastmod>";
      } else if i == 3 {
        assert lines[3] == "    <changefreq>" + changefreq + "</changefreq>";
      } else if i == 4 {
        assert lines[4] == "    <priority>" + priority + "</priority>";
      }
    }
  }

  lemma {:induction false} DreamEntryLinesSingle(dreams: seq<Dream>, today: string)
    requires PlainFields(dreams, today)
    ensures SingleLines(DreamEntryLines(dreams, today))
  {
    if |dreams| > 0 {
      var d := dreams[|dreams| - 1];
      DreamEntryLinesSingle(dreams[..|dreams| - 1], today);
      EntryLinesSingle(SiteUrl + "/" + d.id + "/", LastMod(d, today), "weekly", "0.8");
      SingleLinesAppend(DreamEntryLines(dreams[..|dreams| - 1], today), DreamLines(d, today));
    }
  }

  /**
   * Splitting the sitemap on newlines gives back its lines: the declaration
   * and urlset first, then the home entry and the dream entries in input
   * order, then the closing tag.
   */
  lemma SitemapLinesRoundTrip(dreams: seq<Dream>, today: string)
    requires PlainFields(dreams, today)
    ensures SplitLines(Sitemap(dreams, today)) == SitemapLines(dreams, today)
  {
    SitemapJoinsLines(dreams, today);
    DreamEntryLinesSingle(dreams, today);
    EntryLinesSingle(SiteUrl + "/", today, "daily", "1.0");
    FixedLinesPlain();
    var head: seq<string> := [XmlDeclaration, UrlsetOpen];
    var tail: seq<string> := [UrlsetClose, ""];
    SingleLinesAppend(head, HomeLines(today));
    SingleLinesAppend(head + HomeLines(today), DreamEntryLines(dreams, today));
    SingleLinesAppend(head + HomeLines(today) + DreamEntryLines(dreams, today), tail);
    SplitJoin(SitemapLines(dreams, today));
  }

  /** The number of lines equal to `line`. */
  function CountLine(lines: seq<string>, line: string): nat
  {
    multiset(lines)[line]
  }

  /** Two strings that differ at position k differ. */
  lemma DiffersAt(a: string, b: string, k: nat)
    requires k < |a| && k < |b| && a[k] != b[k]
    ensures a != b
  {
  }

  /** A line that starts with `prefix`, whose third character is not '<', is not "  <url>". */
  lemma NotUrlOpen(prefix: string, rest: string)
    requires |prefix| >= 3 && prefix[2] != '<'
    ensures prefix + rest != UrlOpen
  {
    assert UrlOpen[2] == '<';
    DiffersAt(prefix + rest, UrlOpen, 2);
  }

  /** Every entry opens with exactly one "  <url>" line. */
  lemma EntryOpensOnce(loc: string, lastmod: string, changefreq: string, priority: string)
    ensures CountLine(EntryLines(loc, lastmod, changefreq, priority), UrlOpen) == 1
  {
    NotUrlOpen("    <loc>", loc + "</loc>");
    NotUrlOpen("    <lastmod>", lastmod + "</lastmod>");
    NotUrlOpen("    <changefreq>", changefreq + "</changefreq>");
    NotUrlOpen("    <priority>", priority + "</priority>");
    assert "  </url>"[3] == '/' && UrlOpen[3] == 'u';
    DiffersAt("  </url>", UrlOpen, 3);
    assert "    <loc>" + loc + "</loc>" == "    <loc>" + (loc + "</loc>");
    assert "    <lastmod>" + lastmod + "</lastmod>" == "    <lastmod>" + (lastmod + "</lastmod>");
    assert "    <changefreq>" + changefreq + "</changefreq>" == "    <changefreq>" + (changefreq + "</changefreq>");
    assert "    <priority>" + priority + "</priority>" == "    <priority>" + (priority + "</priority>");
  }

  /** The fixed lines around the entries, and the site URL, hold no newline. */
  lemma FixedLinesPlain()
    ensures SingleLines([XmlDeclaration, UrlsetOpen]) && SingleLines([UrlsetClose, ""]) && NoNewline(SiteUrl)
  {
    assert NoNewline(XmlDeclaration);
    assert NoNewline(UrlsetOpen);
  }

  /** None of the fixed lines around the entries is "  <url>". */
  lemma FixedLinesNotUrl()
    ensures CountLine([XmlDeclaration, UrlsetOpen], UrlOpen) == 0 && CountLine([UrlsetClose, ""], UrlOpen) == 0
  {
    assert XmlDeclaration[0] == '<';
    assert UrlsetOpen[0] == '<';
    assert UrlsetClose[0] == '<' && UrlOpen[0] == ' ';
    DiffersAt(XmlDeclaration, UrlOpen, 0);
    DiffersAt(UrlsetOpen, UrlOpen, 0);
    DiffersAt(UrlsetClose, UrlOpen, 0);
    assert "" != UrlOpen;
  }

  lemma {:induction false} DreamEntriesOpen(dreams: seq<Dream>, today: string)
    ensures CountLine(DreamEntryLines(dreams, today), UrlOpen) == |dreams|
  {
    if |dreams| > 0 {
      var d := dreams[|dreams| - 1];
      DreamEntriesOpen(dreams[..|dreams| - 1], today);
      EntryOpensOnce(SiteUrl + "/" + d.id + "/", LastMod(d, today), "weekly", "0.8");
    }
  }

  /** The sitemap has one <url> entry for the home page and one per dream. */
  lemma SitemapEntryCount(dreams: seq<Dream>, today: string)
    ensures CountLine(SitemapLines(dreams, today), UrlOpen) == 1 + |dreams|
  {
    var head: seq<string> := [XmlDeclaration, UrlsetOpen];
    var tail: seq<string> := [UrlsetClose, ""];
    DreamEntriesOpen(dreams, today);
    EntryOpensOnce(SiteUrl + "/", today, "daily", "1.0");
    FixedLinesNotUrl();
    assert SitemapLines(dreams, today) == head + HomeLines(today) + DreamEntryLines(dreams, today) + tail;
  }

  /**
   * The home entry comes first (daily, priority 1.0, dated today); the
   * entry of dream i follows as the (i + 2)-th, in input order.
   */
  lemma SitemapEntryAt(dreams: seq<Dream>, today: string, i: nat)
    requires i < |dreams|
    ensures SitemapLines(dreams, today)[2..8] == HomeLines(today)
    ensures SitemapLines(dreams, today)[8 + 6 * i .. 14 + 6 * i] == DreamLines(dreams[i], today)
  {
    var lines := SitemapLines(dreams, today);
    var entries := DreamEntryLines(dreams, today);
    assert lines[8..8 + |entries|] == entries;
    DreamEntryLinesAt(dreams, today, i);
    assert lines[8 + 6 * i .. 14 + 6 * i] == lines[8..8 + |entries|][6 * i .. 6 * i + 6];
  }

  /** The lines of dream i's entry: its own URL, and its updated_date or else today. */
  lemma DreamEntryFields(d: Dream, today: string)
    ensures DreamLines(d, today)[1] == "    <loc>" + SiteUrl + "/" + d.id + "/</loc>"
    ensures d.updatedDate.Some? ==> DreamLines(d, today)[2] == "    <lastmod>" + d.updatedDate.value + "</lastmod>"
    ensures d.updatedDate.None? ==> DreamLines(d, today)[2] == "    <lastmod>" + today + "</lastmod>"
  {
  }

  lemma {:induction false} DreamEntryLinesAt(dreams: seq<Dream>, today: string, i: nat)
    requires i < |dreams|
    ensures DreamEntryLines(dreams, today)[6 * i .. 6 * i + 6] == DreamLines(dreams[i], today)
  {
    var init := dreams[..|dreams| - 1];
    if i < |init| {
      DreamEntryLinesAt(init, today, i);
      assert DreamEntryLines(dreams, today)[6 * i .. 6 * i + 6] == DreamEntryLines(init, today)[6 * i .. 6 * i + 6];
    }
  }

  // -------------------------------------------------------------------------
  // main: the files a build writes
  // -------------------------------------------------------------------------

  /**
   * The page writes of a build, one per page: the index page, one page per
   * dream, the sitemap. Two dreams with the same id write the same file.
   */
  function OutputFiles(dreams: seq<Dream>): (files: seq<string>)
    ensures |files| == |dreams| + 2
    ensures files[0] == "index.html" && files[|files| - 1] == "sitemap.xml"
    ensures forall i | 0 <= i < |dreams| :: files[i + 1] == dreams[i].id + "/index.html"
  {
    ["index.html"] + seq(|dreams|, i requires 0 <= i < |dreams| => dreams[i].id + "/index.html") + ["sitemap.xml"]
  }

  /** total_files = 1 + len(dreams) + 1: the number of page writes. */
  function TotalFiles(dreams: seq<Dream>): (n: nat)
    ensures n == |OutputFiles(dreams)|
  {
    1 + |dreams| + 1
  }

  predicate DistinctIds(dreams: seq<Dream>)
  {
    forall i, j | 0 <= i < j < |dreams| :: dreams[i].id != dreams[j].id
  }

  predicate DistinctFiles(files: seq<string>)
  {
    forall i, j | 0 <= i < j < |files| :: files[i] != files[j]
  }

  lemma PagePathsDiffer(a: string, b: string)
    requires a != b
    ensures a + "/index.html" != b + "/index.html"
  {
    if |a| == |b| {
      assert (a + "/index.html")[..|a|] == a && (b + "/index.html")[..|b|] == b;
    }
  }

  lemma PagePathNotFixed(id: string)
    ensures id + "/index.html" != "index.html"
    ensures id + "/index.html" != "sitemap.xml"
  {
    if |id| == 0 {
      assert (id + "/index.html")[0] == '/';
    }
  }

  /**
   * The writes name distinct files exactly when the dreams' ids are distinct,
   * so TotalFiles counts the files on disk only then.
   */
  lemma OutputFilesDistinct(dreams: seq<Dream>)
    ensures DistinctFiles(OutputFiles(dreams)) <==> DistinctIds(dreams)
  {
    var files := OutputFiles(dreams);
    if DistinctIds(dreams) {
      forall i, j | 0 <= i < j < |files|
        ensures files[i] != files[j]
      {
        if 0 < i && j < |files| - 1 {
          PagePathsDiffer(dreams[i - 1].id, dreams[j - 1].id);
        } else if 0 < i {
          PagePathNotFixed(dreams[i - 1].id);
        } else if j < |files| - 1 {
          PagePathNotFixed(dreams[j - 1].id);
        }
      }
    } else {
      var i, j :| 0 <= i < j < |dreams| && dreams[i].id == dreams[j].id;
      assert files[i + 1] == files[j + 1];
    }
  }
}

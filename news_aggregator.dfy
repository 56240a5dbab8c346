/**
 * `news-aggregator.cc`: feeds and articles are fetched once per URL, the
 * articles of one feed that share a title are merged into one entry, and the
 * merged entries go into the word index.
 *
 * The source runs each feed and each article on a thread pool. Here they run
 * one after another, so the task that claims a URL first is the first one in
 * that order, where under threads it is whichever the schedule lets in
 * first. The merge rule is shown not to depend on the order the articles
 * that did claim their URLs arrive in (RecordAllOrderFree), and the URL set
 * is checked and extended in one step, as under the source's lock.
 * Downloading and parsing a feed or a page are parameters returning `None`
 * on failure.
 */
module NewsAggregator {
  import opened Wrappers
  import opened Lex
  import opened RssArticle
  import opened RssIndex

  /** A `titleMap` value: the article kept for a title and its sorted tokens. */
  datatype Entry = Entry(article: Article, tokens: seq<string>)

  predicate AllSorted(s: seq<Entry>) {
    forall i :: 0 <= i < |s| ==> Sorted(s[i].tokens)
  }

  predicate SortedEntries(tm: map<string, Entry>) {
    forall t :: t in tm ==> Sorted(tm[t].tokens)
  }

  /**
   * Two arrivals of one title merged: the smaller URL and the sorted
   * intersection of the tokens, under the later article's title.
   */
  function Combine(a: Entry, b: Entry): (r: Entry)
    requires Sorted(a.tokens) && Sorted(b.tokens)
    ensures Sorted(r.tokens) && r.article.title == b.article.title
  {
    Entry(Article(Min(a.article.url, b.article.url), b.article.title), Intersect(a.tokens, b.tokens))
  }

  /**
   * The merged entry keeps the smaller of the two URLs and the tokens the two
   * have in common, each as often as in both.
   */
  lemma CombineIs(a: Entry, b: Entry)
    requires Sorted(a.tokens) && Sorted(b.tokens)
    ensures var r := Combine(a, b);
      (r.article.url == a.article.url || r.article.url == b.article.url) &&
      LessEq(r.article.url, a.article.url) && LessEq(r.article.url, b.article.url) &&
      multiset(r.tokens) == multiset(a.tokens) * multiset(b.tokens)
  {
  }

  lemma CombineCommutes(a: Entry, b: Entry)
    requires Sorted(a.tokens) && Sorted(b.tokens) && a.article.title == b.article.title
    ensures Combine(a, b) == Combine(b, a)
  {
    MinCommutative(a.article.url, b.article.url);
    IntersectCommutative(a.tokens, b.tokens);
  }

  lemma CombineAssociates(a: Entry, b: Entry, c: Entry)
    requires Sorted(a.tokens) && Sorted(b.tokens) && Sorted(c.tokens)
    ensures Combine(Combine(a, b), c) == Combine(a, Combine(b, c))
  {
    MinAssociative(a.article.url, b.article.url, c.article.url);
    IntersectAssociative(a.tokens, b.tokens, c.tokens);
  }

  /**
   * The `titleMap` update for one downloaded article with its sorted tokens:
   * the first article of a title is stored as it is, a later one is merged
   * into the stored entry.
   */
  function Record(tm: map<string, Entry>, e: Entry): (r: map<string, Entry>)
    requires SortedEntries(tm) && Sorted(e.tokens)
    ensures SortedEntries(r)
  {
    var title := e.article.title;
    if title in tm then tm[title := Combine(tm[title], e)] else tm[title := e]
  }

  function RecordAll(tm: map<string, Entry>, ps: seq<Entry>): (r: map<string, Entry>)
    requires SortedEntries(tm) && AllSorted(ps)
    ensures SortedEntries(r)
    decreases |ps|
  {
    if ps == [] then tm else Record(RecordAll(tm, ps[..|ps| - 1]), ps[|ps| - 1])
  }

  /** The arrivals with title `t`, in order. */
  function Group(ps: seq<Entry>, t: string): (g: seq<Entry>)
    ensures forall i :: 0 <= i < |g| ==> g[i].article.title == t && g[i] in ps
    decreases |ps|
  {
    if ps == [] then []
    else
      var g := Group(ps[..|ps| - 1], t);
      if ps[|ps| - 1].article.title == t then g + [ps[|ps| - 1]] else g
  }

  lemma {:induction false} GroupSorted(ps: seq<Entry>, t: string)
    requires AllSorted(ps)
    ensures AllSorted(Group(ps, t))
  {
    var g := Group(ps, t);
    forall i | 0 <= i < |g| ensures Sorted(g[i].tokens) {
      var k :| 0 <= k < |ps| && ps[k] == g[i];
    }
  }

  /** The arrivals of one title merged in order, the first one as it is. */
  function Fold(s: seq<Entry>): (r: Entry)
    requires s != [] && AllSorted(s)
    ensures Sorted(r.tokens)
    decreases |s|
  {
    if |s| == 1 then s[0] else Combine(Fold(s[..|s| - 1]), s[|s| - 1])
  }

  /**
   * The entry a title ends up with is the in-order merge of the arrivals with
   * that title, and a title with no arrival is absent.
   */
  lemma {:induction false} RecordAllIs(ps: seq<Entry>, t: string)
    requires AllSorted(ps)
    ensures AllSorted(Group(ps, t))
    ensures t in RecordAll(map[], ps) <==> Group(ps, t) != []
    ensures t in RecordAll(map[], ps) ==> RecordAll(map[], ps)[t] == Fold(Group(ps, t))
    decreases |ps|
  {
    GroupSorted(ps, t);
    if ps != [] {
      var n := |ps| - 1;
      RecordAllIs(ps[..n], t);
      var g := Group(ps[..n], t);
      if ps[n].article.title == t && g != [] {
        assert (g + [ps[n]])[..|g|] == g;
      }
    }
  }

  function Remove(s: seq<Entry>, i: nat): (r: seq<Entry>)
    requires i < |s|
    ensures |r| == |s| - 1
  {
    s[..i] + s[i + 1..]
  }

  lemma RemoveCount(s: seq<Entry>, i: nat)
    requires i < |s|
    ensures multiset(Remove(s, i)) == multiset(s) - multiset{s[i]}
  {
    assert s == s[..i] + [s[i]] + s[i + 1..];
  }

  predicate SameTitle(s: seq<Entry>, t: string) {
    forall i :: 0 <= i < |s| ==> s[i].article.title == t
  }

  /** Any one arrival can be merged last. */
  lemma {:induction false} FoldRemove(s: seq<Entry>, i: nat, t: string)
    requires AllSorted(s) && SameTitle(s, t) && |s| >= 2 && i < |s|
    ensures AllSorted(Remove(s, i)) && Fold(s) == Combine(Fold(Remove(s, i)), s[i])
    decreases |s|
  {
    var n := |s| - 1;
    var r := Remove(s, i);
    RemoveKeeps(s, i, t);
    if i == n {
      assert r == s[..n];
    } else if n == 1 {
      assert r == [s[1]];
      CombineCommutes(s[0], s[1]);
    } else {
      var p := s[..n];
      FoldRemove(p, i, t);
      var q := Remove(p, i);
      RemoveBeforeLast(s, i);
      assert r[..|r| - 1] == q;
      CombineAssociates(Fold(q), s[i], s[n]);
      CombineCommutes(s[i], s[n]);
      CombineAssociates(Fold(q), s[n], s[i]);
    }
  }

  /** Removing an element before the last one and then adding the last back. */
  lemma RemoveBeforeLast(s: seq<Entry>, i: nat)
    requires i < |s| - 1
    ensures Remove(s, i) == Remove(s[..|s| - 1], i) + [s[|s| - 1]]
  {
    var n := |s| - 1;
    assert s[i + 1..] == s[..n][i + 1..] + [s[n]];
    assert s[..n][..i] == s[..i];
  }

  /** What is left of a sorted, one-title sequence is sorted and of that title. */
  lemma RemoveKeeps(s: seq<Entry>, i: nat, t: string)
    requires AllSorted(s) && SameTitle(s, t) && i < |s|
    ensures AllSorted(Remove(s, i)) && SameTitle(Remove(s, i), t)
  {
    RemoveAt(s, i);
  }

  /** What is left after removing one element, element by element. */
  lemma RemoveAt(s: seq<Entry>, i: nat)
    requires i < |s|
    ensures forall k :: 0 <= k < |Remove(s, i)| ==> Remove(s, i)[k] == if k < i then s[k] else s[k + 1]
  {
    var r := Remove(s, i);
    forall k | 0 <= k < |r| ensures r[k] == if k < i then s[k] else s[k + 1] {
      if k < i {
        assert r[k] == s[..i][k];
      } else {
        assert r[k] == s[i + 1..][k - i];
      }
    }
  }

  /**
   * Merging is order-free: two arrival orders of the same articles of one
   * title give the same entry.
   */
  lemma {:induction false} FoldPermutation(s: seq<Entry>, u: seq<Entry>, t: string)
    requires s != [] && AllSorted(s) && SameTitle(s, t) && multiset(s) == multiset(u)
    ensures u != [] && AllSorted(u) && SameTitle(u, t) && Fold(s) == Fold(u)
    decreases |s|
  {
    assert |u| == |multiset(u)| == |s|;
    forall k | 0 <= k < |u| ensures Sorted(u[k].tokens) && u[k].article.title == t {
      assert u[k] in multiset(s);
    }
    var n := |u| - 1;
    var x := u[n];
    assert x in multiset(s);
    var i :| 0 <= i < |s| && s[i] == x;
    if |s| == 1 {
      assert u == [x] && s == [x];
    } else {
      FoldRemove(s, i, t);
      RemoveKeeps(s, i, t);
      RemoveCount(s, i);
      DropLast(u);
      FoldPermutation(Remove(s, i), u[..n], t);
    }
  }

  lemma DropLast(u: seq<Entry>)
    requires u != []
    ensures u == u[..|u| - 1] + [u[|u| - 1]]
    ensures multiset(u[..|u| - 1]) == multiset(u) - multiset{u[|u| - 1]}
  {
    assert u == u[..|u| - 1] + [u[|u| - 1]];
  }

  /** The arrivals of one title in any two arrangements of the same articles are the same articles. */
  lemma {:induction false} GroupCounts(ps: seq<Entry>, t: string, x: Entry)
    ensures multiset(Group(ps, t))[x] == if x.article.title == t then multiset(ps)[x] else 0
    decreases |ps|
  {
    if ps != [] {
      var n := |ps| - 1;
      assert ps == ps[..n] + [ps[n]];
      GroupCounts(ps[..n], t, x);
    }
  }

  lemma GroupPermutation(ps: seq<Entry>, qs: seq<Entry>, t: string)
    requires multiset(ps) == multiset(qs)
    ensures multiset(Group(ps, t)) == multiset(Group(qs, t))
  {
    forall x ensures multiset(Group(ps, t))[x] == multiset(Group(qs, t))[x] {
      GroupCounts(ps, t, x);
      GroupCounts(qs, t, x);
    }
  }

  /**
   * The final `titleMap` does not depend on the order in which the articles
   * arrive: any rearrangement of the same arrivals gives the same map, which
   * is what lets the threads of the source race.
   */
  lemma RecordAllOrderFree(ps: seq<Entry>, qs: seq<Entry>)
    requires AllSorted(ps) && multiset(ps) == multiset(qs)
    ensures AllSorted(qs) && RecordAll(map[], ps) == RecordAll(map[], qs)
  {
    forall k | 0 <= k < |qs| ensures Sorted(qs[k].tokens) {
      assert qs[k] in multiset(ps);
    }
    var a := RecordAll(map[], ps);
    var b := RecordAll(map[], qs);
    forall t ensures (t in a <==> t in b) && (t in a ==> a[t] == b[t]) {
      RecordAllIs(ps, t);
      RecordAllIs(qs, t);
      GroupPermutation(ps, qs, t);
      if Group(ps, t) != [] {
        FoldPermutation(Group(ps, t), Group(qs, t), t);
      } else {
        assert |Group(qs, t)| == |multiset(Group(qs, t))| == 0;
      }
    }
  }

  /** The URL set after `articles` have been claimed in order. */
  function Seen(seen: set<string>, articles: seq<Article>): (r: set<string>)
    decreases |articles|
  {
    if articles == [] then seen else Seen(seen, articles[..|articles| - 1]) + {articles[|articles| - 1].url}
  }

  /** The articles actually downloaded: the first of each URL not yet in the set. */
  function Fetched(seen: set<string>, articles: seq<Article>): (r: seq<Article>)
    decreases |articles|
  {
    if articles == [] then []
    else
      var n := |articles| - 1;
      if articles[n].url in Seen(seen, articles[..n]) then Fetched(seen, articles[..n])
      else Fetched(seen, articles[..n]) + [articles[n]]
  }

  function UrlsOf(s: seq<Article>): set<string> {
    set i | 0 <= i < |s| :: s[i].url
  }

  /**
   * Each URL is downloaded at most once and never when it was already in the
   * set; the set ends up holding exactly the old URLs and those downloaded.
   */
  lemma {:induction false} FetchedOnce(seen: set<string>, articles: seq<Article>)
    ensures var f := Fetched(seen, articles);
      (forall i, j :: 0 <= i < j < |f| ==> f[i].url != f[j].url) &&
      (forall i :: 0 <= i < |f| ==> f[i].url !in seen) &&
      Seen(seen, articles) == seen + UrlsOf(f)
    decreases |articles|
  {
    if articles != [] {
      var n := |articles| - 1;
      var p := Fetched(seen, articles[..n]);
      FetchedOnce(seen, articles[..n]);
      if articles[n].url !in Seen(seen, articles[..n]) {
        var f := p + [articles[n]];
        assert UrlsOf(f) == UrlsOf(p) + {articles[n].url} by {
          forall x | x in UrlsOf(f) ensures x in UrlsOf(p) + {articles[n].url} {
            var i :| 0 <= i < |f| && f[i].url == x;
            if i < |p| { assert p[i] == f[i]; }
          }
          forall x | x in UrlsOf(p) ensures x in UrlsOf(f) {
            var i :| 0 <= i < |p| && p[i].url == x;
            assert f[i] == p[i];
          }
          assert f[|p|].url == articles[n].url;
        }
        forall i | 0 <= i < |p| ensures p[i].url != articles[n].url {
          assert p[i].url in UrlsOf(p);
        }
      }
    }
  }

  /** The downloaded articles whose page parsed, each with its tokens sorted. */
  function Parsed(fetched: seq<Article>, parse: string -> Option<seq<string>>): (r: seq<Entry>)
    ensures AllSorted(r)
    decreases |fetched|
  {
    if fetched == [] then []
    else
      var n := |fetched| - 1;
      var a := fetched[n];
      match parse(a.url)
      case None => Parsed(fetched[..n], parse)
      case Some(tokens) => Parsed(fetched[..n], parse) + [Entry(a, Sort(tokens))]
  }

  /**
   * The index entries for a `titleMap` added in the given order (a name that
   * is not a title of `tm` adds nothing).
   */
  function AddEntries(index: Table, tm: map<string, Entry>, order: seq<string>): (r: Table)
    decreases |order|
  {
    if order == [] then index
    else
      var t := order[|order| - 1];
      var prev := AddEntries(index, tm, order[..|order| - 1]);
      if t in tm then AddAll(prev, tm[t].article, tm[t].tokens) else prev
  }

  lemma {:induction false} AddEntriesWellFormed(index: Table, tm: map<string, Entry>, order: seq<string>)
    requires WellFormed(index)
    ensures WellFormed(AddEntries(index, tm, order))
    decreases |order|
  {
    if order != [] {
      var t := order[|order| - 1];
      AddEntriesWellFormed(index, tm, order[..|order| - 1]);
      if t in tm {
        AddAllWellFormed(AddEntries(index, tm, order[..|order| - 1]), tm[t].article, tm[t].tokens);
      }
    }
  }

  predicate Distinct(order: seq<string>) {
    forall i, j :: 0 <= i < j < |order| ==> order[i] != order[j]
  }

  /** The merged titles of one feed's articles, the feed's own URL already claimed. */
  function FeedTitles(seen: set<string>, url: string, articles: seq<Article>,
                      parse: string -> Option<seq<string>>): (r: map<string, Entry>)
  {
    RecordAll(map[], Parsed(Fetched(seen + {url}, articles), parse))
  }

  /**
   * The URL set and the index after the task for one feed, given the order
   * its titles were indexed in: unchanged for a claimed URL, only the URL
   * added for a feed that fails to download, else its articles processed.
   */
  function AfterFeed(seen: set<string>, index: Table, url: string, fetch: string -> Option<seq<Article>>,
                     parse: string -> Option<seq<string>>, order: seq<string>): (r: (set<string>, Table))
  {
    if url in seen then (seen, index)
    else match fetch(url)
      case None => (seen + {url}, index)
      case Some(articles) =>
        (Seen(seen + {url}, articles), AddEntries(index, FeedTitles(seen, url, articles, parse), order))
  }

  /** The state after the feeds' tasks run in the order of `urls`, `orders[i]` the title order of `urls[i]`. */
  function AfterFeeds(seen: set<string>, index: Table, urls: seq<string>, orders: seq<seq<string>>,
                      fetch: string -> Option<seq<Article>>, parse: string -> Option<seq<string>>): (r: (set<string>, Table))
    requires |orders| == |urls|
    decreases |urls|
  {
    if urls == [] then (seen, index)
    else
      var n := |urls| - 1;
      var st := AfterFeeds(seen, index, urls[..n], orders[..n], fetch, parse);
      AfterFeed(st.0, st.1, urls[n], fetch, parse, orders[n])
  }

  /** `order` names every title of `tm` exactly once. */
  ghost predicate IndexOrder(tm: map<string, Entry>, order: seq<string>) {
    (forall t :: t in order <==> t in tm) && Distinct(order)
  }

  /** Every feed that is processed has its titles indexed once each, in `orders`. */
  ghost predicate OrdersFit(seen: set<string>, index: Table, urls: seq<string>, orders: seq<seq<string>>,
                            fetch: string -> Option<seq<Article>>, parse: string -> Option<seq<string>>)
    requires |orders| == |urls|
    decreases |urls|
  {
    urls != [] ==>
      var n := |urls| - 1;
      var st := AfterFeeds(seen, index, urls[..n], orders[..n], fetch, parse);
      && OrdersFit(seen, index, urls[..n], orders[..n], fetch, parse)
      && (urls[n] !in st.0 && fetch(urls[n]).Some? ==>
            IndexOrder(FeedTitles(st.0, urls[n], fetch(urls[n]).value, parse), orders[n]))
  }

  /** One more feed: its task runs on the state the earlier feeds left. */
  lemma FeedsStep(seen: set<string>, index: Table, urls: seq<string>, orders: seq<seq<string>>,
                  url: string, order: seq<string>,
                  fetch: string -> Option<seq<Article>>, parse: string -> Option<seq<string>>)
    requires |orders| == |urls|
    ensures var st := AfterFeeds(seen, index, urls, orders, fetch, parse);
      && AfterFeeds(seen, index, urls + [url], orders + [order], fetch, parse) == AfterFeed(st.0, st.1, url, fetch, parse, order)
      && (OrdersFit(seen, index, urls + [url], orders + [order], fetch, parse) <==>
            OrdersFit(seen, index, urls, orders, fetch, parse) &&
            (url !in st.0 && fetch(url).Some? ==> IndexOrder(FeedTitles(st.0, url, fetch(url).value, parse), order)))
  {
    assert (urls + [url])[..|urls|] == urls;
    assert (orders + [order])[..|orders|] == orders;
  }

  /** Every feed's URL ends up claimed, and no claimed URL is given up. */
  lemma {:induction false} AfterFeedsClaims(seen: set<string>, index: Table, urls: seq<string>, orders: seq<seq<string>>,
                                           fetch: string -> Option<seq<Article>>, parse: string -> Option<seq<string>>)
    requires |orders| == |urls|
    ensures var r := AfterFeeds(seen, index, urls, orders, fetch, parse);
      seen <= r.0 && forall i :: 0 <= i < |urls| ==> urls[i] in r.0
    decreases |urls|
  {
    if urls != [] {
      var n := |urls| - 1;
      AfterFeedsClaims(seen, index, urls[..n], orders[..n], fetch, parse);
      var st := AfterFeeds(seen, index, urls[..n], orders[..n], fetch, parse);
      SeenGrows(st.0 + {urls[n]}, if fetch(urls[n]).Some? then fetch(urls[n]).value else []);
      forall i | 0 <= i < n ensures urls[i] in AfterFeeds(seen, index, urls, orders, fetch, parse).0 {
        assert urls[..n][i] == urls[i];
      }
    }
  }

  /** The index stays well formed whatever the feeds and orders. */
  lemma {:induction false} AfterFeedsWellFormed(seen: set<string>, index: Table, urls: seq<string>, orders: seq<seq<string>>,
                                               fetch: string -> Option<seq<Article>>, parse: string -> Option<seq<string>>)
    requires |orders| == |urls| && WellFormed(index)
    ensures WellFormed(AfterFeeds(seen, index, urls, orders, fetch, parse).1)
    decreases |urls|
  {
    if urls != [] {
      var n := |urls| - 1;
      AfterFeedsWellFormed(seen, index, urls[..n], orders[..n], fetch, parse);
      var st := AfterFeeds(seen, index, urls[..n], orders[..n], fetch, parse);
      if urls[n] !in st.0 && fetch(urls[n]).Some? {
        AddEntriesWellFormed(st.1, FeedTitles(st.0, urls[n], fetch(urls[n]).value, parse), orders[n]);
      }
    }
  }

  /** The aggregator's shared state: the URLs claimed so far and the index. */
  class Aggregator {
    var urlSet: set<string>
    const index: RSSIndex

    ghost predicate Valid()
      reads this, index
    {
      index.Valid()
    }

    constructor()
      ensures urlSet == {} && fresh(index) && index.index == map[] && Valid()
    {
      urlSet := {};
      index := new RSSIndex();
    }

    /**
     * The URL check: a URL already in the set is skipped and the set does not
     * change; any other is inserted before it is processed.
     */
    method Claim(url: string) returns (isNew: bool)
      modifies this
      ensures isNew <==> url !in old(urlSet)
      ensures urlSet == old(urlSet) + {url}
    {
      if url in urlSet {
        return false;
      }
      urlSet := urlSet + {url};
      return true;
    }

    /** The article loop of `article2tokens`, each article's task run in turn. */
    method GatherTitles(articles: seq<Article>, parse: string -> Option<seq<string>>)
      returns (titleMap: map<string, Entry>)
      modifies this
      ensures urlSet == Seen(old(urlSet), articles)
      ensures titleMap == RecordAll(map[], Parsed(Fetched(old(urlSet), articles), parse))
    {
      ghost var start := urlSet;
      titleMap := map[];
      var i := 0;
      while i < |articles|
        invariant 0 <= i <= |articles|
        invariant urlSet == Seen(start, articles[..i])
        invariant titleMap == RecordAll(map[], Parsed(Fetched(start, articles[..i]), parse))
      {
        assert articles[..i + 1] == articles[..i] + [articles[i]];
        titleMap := ArticleTask(articles[i], parse, start, articles[..i], titleMap);
        i := i + 1;
      }
      assert articles[..|articles|] == articles;
    }

    /**
     * The task for one article: skip a claimed URL, skip a page that fails to
     * download or parse (`titleMap` unchanged), else sort its tokens and merge
     * them into `titleMap`.
     */
    method ArticleTask(article: Article, parse: string -> Option<seq<string>>,
                       ghost start: set<string>, ghost before: seq<Article>, titleMap: map<string, Entry>)
      returns (titleMap': map<string, Entry>)
      requires urlSet == Seen(start, before)
      requires titleMap == RecordAll(map[], Parsed(Fetched(start, before), parse))
      modifies this
      ensures urlSet == Seen(start, before + [article])
      ensures titleMap' == RecordAll(map[], Parsed(Fetched(start, before + [article]), parse))
    {
      ClaimStep(start, before, article);
      titleMap' := titleMap;
      var isNew := Claim(article.url);
      if isNew {
        var page := parse(article.url);
        ParseStep(Fetched(start, before), article, parse);
        if page.Some? {
          var tokens := Sort(page.value);
          titleMap' := Record(titleMap, Entry(article, tokens));
        }
      }
    }

    /** The last loop of `article2tokens`: every merged entry added to the index once. */
    method IndexTitles(titleMap: map<string, Entry>) returns (ghost order: seq<string>)
      requires Valid()
      modifies index
      ensures Valid()
      ensures (forall t :: t in order <==> t in titleMap) && Distinct(order)
      ensures index.index == AddEntries(old(index.index), titleMap, order)
    {
      ghost var start := index.index;
      order := [];
      var left := titleMap.Keys;
      while left != {}
        invariant left <= titleMap.Keys && Valid()
        invariant forall t :: t in order <==> t in titleMap.Keys - left
        invariant forall i :: 0 <= i < |order| ==> order[i] in titleMap
        invariant Distinct(order)
        invariant index.index == AddEntries(start, titleMap, order)
        decreases |left|
      {
        var t :| t in left;
        assert t !in order;
        index.Add(titleMap[t].article, titleMap[t].tokens);
        assert (order + [t])[..|order|] == order;
        order := order + [t];
        left := left - {t};
      }
    }

    /** `article2tokens`: gather and merge the articles of one feed, then index them. */
    method ArticlesToTokens(articles: seq<Article>, parse: string -> Option<seq<string>>)
      returns (ghost titleMap: map<string, Entry>, ghost order: seq<string>)
      requires Valid()
      modifies this, index
      ensures Valid()
      ensures urlSet == Seen(old(urlSet), articles)
      ensures titleMap == RecordAll(map[], Parsed(Fetched(old(urlSet), articles), parse))
      ensures (forall t :: t in order <==> t in titleMap) && Distinct(order)
      ensures index.index == AddEntries(old(index.index), titleMap, order)
    {
      var tm := GatherTitles(articles, parse);
      titleMap := tm;
      order := IndexTitles(tm);
    }

    /**
     * The task for one feed in `feed2articles`: a claimed URL is skipped with
     * nothing changed; a feed that fails to download adds only its URL;
     * otherwise its articles are processed.
     */
    method FeedTask(url: string, fetch: string -> Option<seq<Article>>, parse: string -> Option<seq<string>>)
      returns (ghost order: seq<string>)
      requires Valid()
      modifies this, index
      ensures Valid()
      ensures url in old(urlSet) ==> urlSet == old(urlSet) && index.index == old(index.index)
      ensures url !in old(urlSet) && fetch(url).None? ==> urlSet == old(urlSet) + {url} && index.index == old(index.index)
      ensures url !in old(urlSet) && fetch(url).Some? ==>
        var titleMap := RecordAll(map[], Parsed(Fetched(old(urlSet) + {url}, fetch(url).value), parse));
        && urlSet == Seen(old(urlSet) + {url}, fetch(url).value)
        && (forall t :: t in order <==> t in titleMap) && Distinct(order)
        && index.index == AddEntries(old(index.index), titleMap, order)
      ensures (urlSet, index.index) == AfterFeed(old(urlSet), old(index.index), url, fetch, parse, order)
      ensures url !in old(urlSet) && fetch(url).Some? ==> IndexOrder(FeedTitles(old(urlSet), url, fetch(url).value, parse), order)
    {
      order := [];
      var isNew := Claim(url);
      if !isNew {
        return;
      }
      var feed := fetch(url);
      if feed.None? {
        return;
      }
      ghost var titleMap;
      titleMap, order := ArticlesToTokens(feed.value, parse);
    }

    /**
     * `feed2articles`: every feed's task, in whatever order the pool runs
     * them. `feedOrder` is that order, each feed once, and `orders[i]` the
     * order the titles of `feedOrder[i]` were indexed in.
     */
    method FeedsToArticles(feeds: map<string, string>, fetch: string -> Option<seq<Article>>,
                           parse: string -> Option<seq<string>>)
      returns (ghost feedOrder: seq<string>, ghost orders: seq<seq<string>>)
      requires Valid()
      modifies this, index
      ensures Valid()
      ensures (forall u :: u in feedOrder <==> u in feeds) && Distinct(feedOrder) && |orders| == |feedOrder|
      ensures OrdersFit(old(urlSet), old(index.index), feedOrder, orders, fetch, parse)
      ensures (urlSet, index.index) == AfterFeeds(old(urlSet), old(index.index), feedOrder, orders, fetch, parse)
      ensures old(urlSet) + feeds.Keys <= urlSet
    {
      ghost var seen, start := urlSet, index.index;
      feedOrder, orders := [], [];
      var left := feeds.Keys;
      while left != {}
        invariant left <= feeds.Keys && Valid()
        invariant forall u :: u in feedOrder <==> u in feeds.Keys - left
        invariant Distinct(feedOrder) && |orders| == |feedOrder|
        invariant OrdersFit(seen, start, feedOrder, orders, fetch, parse)
        invariant (urlSet, index.index) == AfterFeeds(seen, start, feedOrder, orders, fetch, parse)
        decreases |left|
      {
        var url :| url in left;
        assert url !in feedOrder;
        ghost var order := FeedTask(url, fetch, parse);
        FeedsStep(seen, start, feedOrder, orders, url, order, fetch, parse);
        feedOrder, orders := feedOrder + [url], orders + [order];
        left := left - {url};
      }
      AfterFeedsClaims(seen, start, feedOrder, orders, fetch, parse);
      forall u | u in feeds ensures u in urlSet {
        assert u in feedOrder;
        var i :| 0 <= i < |feedOrder| && feedOrder[i] == u;
      }
    }
  }

  /** One more article claimed: its URL joins the set, and it is downloaded when the URL is new. */
  lemma ClaimStep(seen: set<string>, before: seq<Article>, a: Article)
    ensures Seen(seen, before + [a]) == Seen(seen, before) + {a.url}
    ensures Fetched(seen, before + [a]) ==
      if a.url in Seen(seen, before) then Fetched(seen, before) else Fetched(seen, before) + [a]
  {
    assert (before + [a])[..|before|] == before;
  }

  /** One more downloaded article: recorded when its page parses, left out otherwise. */
  lemma ParseStep(fetched: seq<Article>, a: Article, parse: string -> Option<seq<string>>)
    ensures Parsed(fetched + [a], parse) ==
      if parse(a.url).None? then Parsed(fetched, parse) else Parsed(fetched, parse) + [Entry(a, Sort(parse(a.url).value))]
  {
    assert (fetched + [a])[..|fetched|] == fetched;
  }

  /** Claiming URLs only adds to the set. */
  lemma {:induction false} SeenGrows(seen: set<string>, articles: seq<Article>)
    ensures seen <= Seen(seen, articles)
    decreases |articles|
  {
    if articles != [] {
      SeenGrows(seen, articles[..|articles| - 1]);
    }
  }
}

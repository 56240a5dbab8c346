/**
 * `rss-index.cc`: the index from words to the articles they occur in, each
 * with the number of times the word was seen in it.
 *
 * The per-word `std::map<Article, int>` is keyed by `operator<`, which looks
 * at URLs only, so it is modelled as a map from URL to the entry: the article
 * that was stored first under that URL and its counter.
 */
module RssIndex {
  import opened Lex
  import opened RssArticle

  /** One `pair<Article, int>`: an article and how often the word occurs in it. */
  datatype Match = Match(article: Article, count: nat)

  type Entries = map<string, Match>
  type Table = map<string, Entries>

  /** Every entry sits under its own URL and has been counted at least once. */
  predicate WellFormed(index: Table) {
    forall w, u :: w in index && u in index[w] ==> index[w][u].article.url == u && index[w][u].count >= 1
  }

  /** How often `word` was recorded for the article with URL `url`; 0 when never. */
  function Count(index: Table, word: string, url: string): nat {
    if word in index && url in index[word] then index[word][url].count else 0
  }

  /**
   * `index[word][article]++`: a missing word or URL starts at 0; an entry
   * already under the URL keeps its article and only its counter grows.
   */
  function AddWord(index: Table, article: Article, word: string): (r: Table)
    ensures word in r && article.url in r[word]
  {
    var inner := if word in index then index[word] else map[];
    var e := if article.url in inner then Match(inner[article.url].article, inner[article.url].count + 1) else Match(article, 1);
    index[word := inner[article.url := e]]
  }

  /** `add`: the words counted one after another. */
  function AddAll(index: Table, article: Article, words: seq<string>): (r: Table)
    decreases |words|
  {
    if words == [] then index
    else AddWord(AddAll(index, article, words[..|words| - 1]), article, words[|words| - 1])
  }

  /** One recorded occurrence raises exactly one counter by one. */
  lemma AddWordCount(index: Table, article: Article, word: string, w: string, u: string)
    ensures Count(AddWord(index, article, word), w, u) == Count(index, w, u) + (if w == word && u == article.url then 1 else 0)
  {
  }

  lemma AddWordWellFormed(index: Table, article: Article, word: string)
    requires WellFormed(index)
    ensures WellFormed(AddWord(index, article, word))
  {
  }

  /**
   * After `add`, the counter of `word` for a URL has grown by the number of
   * times the word occurs in the list when the URL is the article's, and
   * not at all otherwise; duplicates count, and an empty list changes
   * nothing.
   */
  lemma {:induction false} AddAllCount(index: Table, article: Article, words: seq<string>, w: string, u: string)
    ensures Count(AddAll(index, article, words), w, u) == Count(index, w, u) + (if u == article.url then multiset(words)[w] else 0)
    decreases |words|
  {
    if words != [] {
      var n := |words| - 1;
      assert words == words[..n] + [words[n]];
      AddAllCount(index, article, words[..n], w, u);
      AddWordCount(AddAll(index, article, words[..n]), article, words[n], w, u);
    }
  }

  lemma {:induction false} AddAllWellFormed(index: Table, article: Article, words: seq<string>)
    requires WellFormed(index)
    ensures WellFormed(AddAll(index, article, words))
    decreases |words|
  {
    if words != [] {
      AddAllWellFormed(index, article, words[..|words| - 1]);
      AddWordWellFormed(AddAll(index, article, words[..|words| - 1]), article, words[|words| - 1]);
    }
  }

  /**
   * An article already stored under a URL stays there, whatever the title
   * of a later article with the same URL; a URL met for the first time is
   * stored with the article added.
   */
  lemma {:induction false} AddAllKeepsArticle(index: Table, article: Article, words: seq<string>, w: string, u: string)
    requires w in AddAll(index, article, words) && u in AddAll(index, article, words)[w]
    ensures w in index && u in index[w] ==> AddAll(index, article, words)[w][u].article == index[w][u].article
    ensures !(w in index && u in index[w]) ==> AddAll(index, article, words)[w][u].article == article
    decreases |words|
  {
    if words != [] {
      var n := |words| - 1;
      var before := AddAll(index, article, words[..n]);
      if w in before && u in before[w] {
        AddAllKeepsArticle(index, article, words[..n], w, u);
      } else if w in index && u in index[w] {
        AddAllGrows(index, article, words[..n], w, u);
      }
    }
  }

  /** Nothing recorded is ever removed. */
  lemma {:induction false} AddAllGrows(index: Table, article: Article, words: seq<string>, w: string, u: string)
    requires w in index && u in index[w]
    ensures w in AddAll(index, article, words) && u in AddAll(index, article, words)[w]
    decreases |words|
  {
    if words != [] {
      AddAllGrows(index, article, words[..|words| - 1], w, u);
    }
  }

  /** Two orders of adding give the same counters. */
  lemma AddAllCommutes(index: Table, a: Article, ws: seq<string>, b: Article, vs: seq<string>, w: string, u: string)
    ensures Count(AddAll(AddAll(index, a, ws), b, vs), w, u) == Count(AddAll(AddAll(index, b, vs), a, ws), w, u)
  {
    AddAllCount(AddAll(index, a, ws), b, vs, w, u);
    AddAllCount(index, a, ws, w, u);
    AddAllCount(AddAll(index, b, vs), a, ws, w, u);
    AddAllCount(index, b, vs, w, u);
  }

  /** The result order: higher counts first, equal counts by article (URL) order. */
  predicate Outranks(one: Match, two: Match) {
    one.count > two.count || (one.count == two.count && Before(one.article, two.article))
  }

  predicate Ranked(r: seq<Match>) {
    forall i, j :: 0 <= i < j < |r| ==> Outranks(r[i], r[j])
  }

  /** `r` holds exactly the entries of `m`. */
  predicate Lists(r: seq<Match>, m: Entries) {
    (forall i :: 0 <= i < |r| ==> r[i].article.url in m && m[r[i].article.url] == r[i]) &&
    (forall u :: u in m ==> m[u] in r)
  }

  predicate DistinctUrls(s: seq<Match>) {
    forall i, j :: 0 <= i < j < |s| ==> s[i].article.url != s[j].article.url
  }

  lemma OutranksAsymmetric(x: Match, y: Match)
    requires Outranks(x, y)
    ensures !Outranks(y, x) && x != y
  {
    if x.count == y.count {
      LessAsymmetric(x.article.url, y.article.url);
    }
  }

  lemma OutranksTransitive(x: Match, y: Match, z: Match)
    requires Outranks(x, y) && Outranks(y, z)
    ensures Outranks(x, z)
  {
    if x.count == y.count && y.count == z.count {
      BeforeTransitive(x.article, y.article, z.article);
    }
  }

  /** Entries with different URLs are always ranked one way or the other. */
  lemma OutranksTotal(x: Match, y: Match)
    requires x.article.url != y.article.url
    ensures Outranks(x, y) || Outranks(y, x)
  {
    LessTotal(x.article.url, y.article.url);
  }

  /** The place of `x` in a ranked sequence: before the first entry it outranks. */
  function RankInsert(x: Match, s: seq<Match>): (r: seq<Match>)
    requires Ranked(s) && DistinctUrls(s)
    requires forall i :: 0 <= i < |s| ==> s[i].article.url != x.article.url
    ensures |r| == |s| + 1 && Ranked(r) && DistinctUrls(r)
    ensures forall y :: y in r <==> y == x || y in s
  {
    if s == [] then [x]
    else if Outranks(x, s[0]) then
      RankInsertFront(x, s);
      [x] + s
    else
      OutranksTotal(x, s[0]);
      var t := RankInsert(x, s[1..]);
      RankInsertBehind(x, s, t);
      [s[0]] + t
  }

  lemma RankInsertFront(x: Match, s: seq<Match>)
    requires Ranked(s) && DistinctUrls(s) && s != [] && Outranks(x, s[0])
    requires forall i :: 0 <= i < |s| ==> s[i].article.url != x.article.url
    ensures Ranked([x] + s) && DistinctUrls([x] + s)
  {
    var r := [x] + s;
    forall i, j | 0 <= i < j < |r| ensures Outranks(r[i], r[j]) {
      if i == 0 && j > 1 {
        OutranksTransitive(x, s[0], s[j - 1]);
      }
    }
  }

  lemma RankInsertBehind(x: Match, s: seq<Match>, t: seq<Match>)
    requires Ranked(s) && DistinctUrls(s) && s != [] && Outranks(s[0], x)
    requires Ranked(t) && DistinctUrls(t) && |t| == |s|
    requires forall y :: y in t <==> y == x || y in s[1..]
    requires forall i :: 0 <= i < |s| ==> s[i].article.url != x.article.url
    ensures Ranked([s[0]] + t) && DistinctUrls([s[0]] + t)
  {
    var r := [s[0]] + t;
    forall j | 0 <= j < |t| ensures Outranks(s[0], t[j]) && s[0].article.url != t[j].article.url {
      assert t[j] in t;
      if t[j] != x {
        var k :| 0 <= k < |s[1..]| && s[1..][k] == t[j];
        assert s[k + 1] == t[j];
      }
    }
    forall i, j | 0 <= i < j < |r| ensures Outranks(r[i], r[j]) && r[i].article.url != r[j].article.url {
      if i > 0 {
        assert r[i] == t[i - 1] && r[j] == t[j - 1];
      } else {
        assert r[j] == t[j - 1];
      }
    }
  }

  /** `std::sort` with the ranking comparator, as insertion into a ranked sequence. */
  function RankSort(v: seq<Match>): (r: seq<Match>)
    requires DistinctUrls(v)
    ensures |r| == |v| && Ranked(r) && DistinctUrls(r)
    ensures forall y :: y in r <==> y in v
  {
    if v == [] then []
    else
      var t := RankSort(v[1..]);
      assert forall i :: 0 <= i < |t| ==> t[i].article.url != v[0].article.url by {
        forall i | 0 <= i < |t| ensures t[i].article.url != v[0].article.url {
          assert t[i] in t;
          var k :| 0 <= k < |v[1..]| && v[1..][k] == t[i];
          assert v[k + 1] == t[i];
        }
      }
      assert forall y :: y in v <==> y == v[0] || y in v[1..] by {
        assert v == [v[0]] + v[1..];
      }
      RankInsert(v[0], t)
  }

  /**
   * Two ranked sequences with the same entries are the same sequence: the
   * ranking is a strict total order on the entries of one word, so the sorted
   * result does not depend on the order the entries were gathered in.
   */
  lemma {:induction false} RankedUnique(a: seq<Match>, b: seq<Match>)
    requires Ranked(a) && Ranked(b)
    requires forall y :: y in a <==> y in b
    ensures a == b
    decreases |a|
  {
    HeadIn(b);
    if a != [] {
      assert a[0] in a;
      assert b != [];
      assert b[0] in b;
      if a[0] != b[0] {
        var i :| 0 <= i < |b| && b[i] == a[0];
        var j :| 0 <= j < |a| && a[j] == b[0];
        assert Outranks(b[0], a[0]);
        assert Outranks(a[0], b[0]);
        OutranksAsymmetric(a[0], b[0]);
      }
      forall y ensures y in a[1..] <==> y in b[1..] {
        RankedTail(a, y);
        RankedTail(b, y);
      }
      RankedUnique(a[1..], b[1..]);
    }
  }

  lemma HeadIn(b: seq<Match>)
    ensures b != [] ==> b[0] in b
  {
  }

  /** The rest of a ranked sequence is everything but its head. */
  lemma RankedTail(a: seq<Match>, y: Match)
    requires Ranked(a) && a != []
    ensures y in a[1..] <==> y in a && y != a[0]
  {
    if y in a[1..] {
      var k :| 0 <= k < |a[1..]| && a[1..][k] == y;
      assert Outranks(a[0], a[k + 1]);
      OutranksAsymmetric(a[0], y);
    }
    if y in a && y != a[0] {
      var k :| 0 <= k < |a| && a[k] == y;
      assert a[1..][k - 1] == y;
    }
  }

  /**
   * The word index. `add` is not thread-safe in the source; the callers lock
   * around it and the model is sequential.
   */
  class RSSIndex {
    var index: Table

    ghost predicate Valid()
      reads this
    {
      WellFormed(index)
    }

    constructor()
      ensures index == map[] && Valid()
    {
      index := map[];
    }

    /** `add`: each word of the list counted once for the article, in order. */
    method Add(article: Article, words: seq<string>)
      requires Valid()
      modifies this
      ensures index == AddAll(old(index), article, words)
      ensures Valid()
    {
      ghost var start := index;
      var i := 0;
      while i < |words|
        invariant 0 <= i <= |words|
        invariant index == AddAll(start, article, words[..i])
      {
        assert words[..i + 1][..i] == words[..i];
        index := AddWord(index, article, words[i]);
        i := i + 1;
      }
      assert words[..|words|] == words;
      AddAllWellFormed(start, article, words);
    }

    /**
     * `getMatchingArticles`: nothing for a word never added; otherwise every
     * article recorded for the word once, with its counter, ranked by count
     * from high to low and by URL among equal counts.
     */
    method GetMatchingArticles(word: string) returns (r: seq<Match>)
      requires Valid()
      ensures word !in index ==> r == []
      ensures word in index ==> Ranked(r) && Lists(r, index[word])
      ensures forall i :: 0 <= i < |r| ==> r[i].count == Count(index, word, r[i].article.url) >= 1
    {
      if word !in index {
        return [];
      }
      var matches := index[word];
      var v: seq<Match> := [];
      var left := matches.Keys;
      while left != {}
        invariant left <= matches.Keys
        invariant DistinctUrls(v)
        invariant forall i :: 0 <= i < |v| ==> v[i].article.url in matches.Keys - left && matches[v[i].article.url] == v[i]
        invariant forall u :: u in matches.Keys - left ==> matches[u] in v
        decreases |left|
      {
        var u :| u in left;
        v := v + [matches[u]];
        left := left - {u};
      }
      r := RankSort(v);
      forall i | 0 <= i < |r|
        ensures r[i].article.url in matches && matches[r[i].article.url] == r[i]
      {
        assert r[i] in r;
        var k :| 0 <= k < |v| && v[k] == r[i];
      }
    }
  }

  /** Whatever order the entries are gathered in, the query has one answer. */
  lemma MatchingUnique(m: Entries, r1: seq<Match>, r2: seq<Match>)
    requires Ranked(r1) && Lists(r1, m) && Ranked(r2) && Lists(r2, m)
    ensures r1 == r2
  {
    forall y ensures y in r1 <==> y in r2 {
      if y in r1 {
        var i :| 0 <= i < |r1| && r1[i] == y;
      }
      if y in r2 {
        var i :| 0 <= i < |r2| && r2[i] == y;
      }
    }
    RankedUnique(r1, r2);
  }
}

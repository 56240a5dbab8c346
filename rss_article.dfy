/**
 * `article.h`: a news article is a URL and a title, and articles are ordered
 * by URL alone, so two articles with the same URL are the same key of an
 * ordered map whatever their titles.
 */
module RssArticle {
  import opened Lex

  datatype Article = Article(url: string, title: string)

  /** `operator<` on articles: the URLs compared as strings. */
  predicate Before(one: Article, two: Article) {
    Less(one.url, two.url)
  }

  lemma BeforeIrreflexive(a: Article)
    ensures !Before(a, a)
  {
    LessIrreflexive(a.url);
  }

  lemma BeforeTransitive(a: Article, b: Article, c: Article)
    requires Before(a, b) && Before(b, c)
    ensures Before(a, c)
  {
    LessTransitive(a.url, b.url, c.url);
  }

  /**
   * Two articles neither of which is before the other have the same URL,
   * and articles with the same URL are neither before the other: the
   * order's equivalence is equality of URLs.
   */
  lemma EquivalentIffSameUrl(a: Article, b: Article)
    ensures !Before(a, b) && !Before(b, a) <==> a.url == b.url
  {
    LessTotal(a.url, b.url);
    if a.url == b.url {
      LessIrreflexive(a.url);
    }
  }
}

/**
 * `path.cc`: a chain from one player (actor or actress) to another through
 * films, stored as the first player and a list of (film, player) links; link
 * `i` is a film that player `i` and player `i + 1` both appear in.
 */
module ActorPath {
  import opened Text

  /** `film`: two films are the same when title and year both agree. */
  datatype Film = Film(title: string, year: int)

  /** One `connection`: the film and the player it leads to. */
  datatype Connection = Connection(movie: Film, player: string)

  /** Player `i` of a path: the start player for 0, else the player of link `i - 1`. */
  function PlayerAt(start: string, links: seq<Connection>, i: nat): string
    requires i <= |links|
  {
    if i == 0 then start else links[i - 1].player
  }

  /** `getLastPlayer`: the player of the last link, or the start player of an empty path. */
  function LastPlayer(start: string, links: seq<Connection>): (r: string)
    ensures r == PlayerAt(start, links, |links|)
  {
    if |links| == 0 then start else links[|links| - 1].player
  }

  /**
   * The links of the reversed path, in the order `reverse` adds them: link
   * `k` is the film of old link `n - 1 - k` with the player before it.
   */
  function ReversedLinks(start: string, links: seq<Connection>): (r: seq<Connection>)
    ensures |r| == |links|
  {
    seq(|links|, k requires 0 <= k < |links| =>
      Connection(links[|links| - 1 - k].movie, PlayerAt(start, links, |links| - 1 - k)))
  }

  /** The players of the reversed path are those of the path, last first. */
  lemma ReversedPlayers(start: string, links: seq<Connection>, j: nat)
    requires j <= |links|
    ensures PlayerAt(LastPlayer(start, links), ReversedLinks(start, links), j) == PlayerAt(start, links, |links| - j)
  {
  }

  /**
   * `reverse` keeps the length, makes the old last player the start and the
   * old start the last player, and lists the films last first.
   */
  lemma ReverseShape(start: string, links: seq<Connection>)
    ensures |ReversedLinks(start, links)| == |links|
    ensures LastPlayer(LastPlayer(start, links), ReversedLinks(start, links)) == start
    ensures forall k :: 0 <= k < |links| ==> ReversedLinks(start, links)[k].movie == links[|links| - 1 - k].movie
  {
    ReversedPlayers(start, links, |links|);
  }

  /** Reversing twice gives back the path. */
  lemma ReverseTwice(start: string, links: seq<Connection>)
    ensures LastPlayer(LastPlayer(start, links), ReversedLinks(start, links)) == start
    ensures ReversedLinks(LastPlayer(start, links), ReversedLinks(start, links)) == links
  {
    var s := LastPlayer(start, links);
    var r := ReversedLinks(start, links);
    ReversedPlayers(start, links, |links|);
    forall k | 0 <= k < |links| ensures ReversedLinks(s, r)[k] == links[k] {
      ReversedPlayers(start, links, |links| - 1 - k);
    }
  }

  /** `"title" (year) with player.` and the end of the line, for one link. */
  function Leg(c: Connection): string {
    Concat(["\"", c.movie.title, "\" (", IntToString(c.movie.year), ") with ", c.player, ".\n"])
  }

  /** Line `i` of a printed path: player `i` was in film `i` with player `i + 1`. */
  function Line(start: string, links: seq<Connection>, i: nat): string
    requires i < |links|
  {
    Concat([PlayerAt(start, links, i), " was in ", Leg(links[i])])
  }

  /** Lines `0..k` one after another. */
  function Lines(start: string, links: seq<Connection>, k: nat): string
    requires k <= |links|
  {
    if k == 0 then "" else Lines(start, links, k - 1) + Line(start, links, k - 1)
  }

  const EMPTY_PATH_TEXT: string := "[Empty path]\n"

  /** What `operator<<` writes: a fixed text for an empty path, else one line per link. */
  function PathText(start: string, links: seq<Connection>): string {
    if |links| == 0 then EMPTY_PATH_TEXT else Lines(start, links, |links|)
  }

  /** `path`: a player and an ordered list of links, changed in place. */
  class Path {
    var startPlayer: string
    var links: seq<Connection>

    /** A new path holds only its start player. */
    constructor(player: string)
      ensures startPlayer == player && links == []
      ensures GetLength() == 0 && GetLastPlayer() == player
    {
      startPlayer := player;
      links := [];
    }

    function GetLength(): nat
      reads this
    {
      |links|
    }

    /** `addConnection`: one more link at the end, unchecked. */
    method AddConnection(movie: Film, player: string)
      modifies this
      ensures startPlayer == old(startPlayer)
      ensures links == old(links) + [Connection(movie, player)]
      ensures GetLength() == old(GetLength()) + 1 && GetLastPlayer() == player
    {
      links := links + [Connection(movie, player)];
    }

    /** `undoConnection`: the last link removed; nothing happens to an empty path. */
    method UndoConnection()
      modifies this
      ensures startPlayer == old(startPlayer)
      ensures old(links) == [] ==> links == []
      ensures old(links) != [] ==> links == old(links)[..|old(links)| - 1]
    {
      if |links| == 0 {
        return;
      }
      links := links[..|links| - 1];
    }

    function GetLastPlayer(): (r: string)
      reads this
      ensures r == LastPlayer(startPlayer, links)
    {
      if |links| == 0 then startPlayer else links[|links| - 1].player
    }

    /**
     * `reverse`: a new path from the last player, its links added from the
     * last film back, then assigned to this one.
     */
    method Reverse()
      modifies this
      ensures startPlayer == LastPlayer(old(startPlayer), old(links))
      ensures links == ReversedLinks(old(startPlayer), old(links))
    {
      var reverseOfPath := new Path(GetLastPlayer());
      var n := |links|;
      var i := n - 1;
      while i > 0
        invariant 0 <= i < n || (n == 0 && i == -1)
        invariant reverseOfPath != this
        invariant reverseOfPath.startPlayer == LastPlayer(startPlayer, links)
        invariant reverseOfPath.links == ReversedLinks(startPlayer, links)[..n - 1 - i]
        modifies reverseOfPath
      {
        ReversedLinksStep(startPlayer, links, n - 1 - i);
        reverseOfPath.AddConnection(links[i].movie, links[i - 1].player);
        i := i - 1;
      }
      if n > 0 {
        ReversedLinksStep(startPlayer, links, n - 1);
        reverseOfPath.AddConnection(links[0].movie, startPlayer);
      }
      assert reverseOfPath.links == ReversedLinks(startPlayer, links);
      startPlayer, links := reverseOfPath.startPlayer, reverseOfPath.links;
    }

    /** `operator<<`: the text written for this path. */
    method Print() returns (os: string)
      ensures os == PathText(startPlayer, links)
    {
      if |links| == 0 {
        return EMPTY_PATH_TEXT;
      }
      os := startPlayer + " was in ";
      BeforeStart(startPlayer, links);
      var i := 0;
      while i < |links|
        invariant 0 <= i < |links|
        invariant os == Before(startPlayer, links, i)
      {
        os := PrintLink(i, os);
        if i + 1 == |links| {
          break;
        }
        i := i + 1;
      }
    }

    /** One turn of the printing loop: link `i`, then the next player unless it was the last. */
    method PrintLink(i: nat, os: string) returns (os': string)
      requires i < |links| && os == Before(startPlayer, links, i)
      ensures i + 1 == |links| ==> os' == Lines(startPlayer, links, |links|)
      ensures i + 1 < |links| ==> os' == Before(startPlayer, links, i + 1)
    {
      os' := os + Leg(links[i]);
      LinesStep(startPlayer, links, i);
      if i + 1 == |links| {
        return;
      }
      os' := os' + links[i].player + " was in ";
      BeforeNext(startPlayer, links, i);
    }
  }

  /** What is written before link `i`: the lines before it and the start of its own. */
  function Before(start: string, links: seq<Connection>, i: nat): string
    requires i <= |links|
  {
    Lines(start, links, i) + Concat([PlayerAt(start, links, i), " was in "])
  }

  /** One more link of the reversed path, as `reverse` adds it. */
  lemma ReversedLinksStep(start: string, links: seq<Connection>, k: nat)
    requires k < |links|
    ensures ReversedLinks(start, links)[..k + 1]
         == ReversedLinks(start, links)[..k] + [Connection(links[|links| - 1 - k].movie, PlayerAt(start, links, |links| - 1 - k))]
  {
    var r := ReversedLinks(start, links);
    assert r[..k + 1] == r[..k] + [r[k]];
  }

  /** The text before link `i`, followed by that link, is the first `i + 1` lines. */
  lemma LinesStep(start: string, links: seq<Connection>, i: nat)
    requires i < |links|
    ensures Before(start, links, i) + Leg(links[i]) == Lines(start, links, i + 1)
  {
    var head := [PlayerAt(start, links, i), " was in "];
    ConcatSnoc(head, Leg(links[i]));
    assert head + [Leg(links[i])] == [PlayerAt(start, links, i), " was in ", Leg(links[i])];
    Regroup(Lines(start, links, i), Concat(head), Leg(links[i]));
  }

  /** Before the first link comes only the start player. */
  lemma BeforeStart(start: string, links: seq<Connection>)
    requires |links| > 0
    ensures Before(start, links, 0) == start + " was in "
  {
    ConcatPair(start, " was in ");
    assert Lines(start, links, 0) + (start + " was in ") == start + " was in ";
  }

  /** Before link `i + 1` come the first `i + 1` lines and the player link `i` leads to. */
  lemma BeforeNext(start: string, links: seq<Connection>, i: nat)
    requires i + 1 < |links|
    ensures Before(start, links, i + 1) == Lines(start, links, i + 1) + links[i].player + " was in "
  {
    ConcatPair(links[i].player, " was in ");
    Regroup(Lines(start, links, i + 1), links[i].player, " was in ");
  }

  /** An empty path prints as "[Empty path]" and a newline. */
  lemma EmptyPathText(start: string)
    ensures PathText(start, []) == "[Empty path]\n"
  {
  }
}

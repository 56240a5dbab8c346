/**
 * `search.cc`: breadth-first search for a chain of shared films from a
 * source player to a target player. The database is two finite maps standing
 * in for `imdb::getCredits` (a player's films) and `imdb::getCast` (a film's
 * players); a key that is absent is a lookup that returns false.
 */
module ActorSearch {
  import opened Wrappers
  import opened ActorPath

  datatype Imdb = Imdb(credits: map<string, seq<Film>>, cast: map<Film, seq<string>>)

  /** One element of a partial path: a player and the film that led to them. */
  datatype Step = Step(player: string, movie: Film)

  /** The film paired with the source player, never printed. */
  const DUMMY_FILM: Film := Film("zhangrao", 1990)

  /** The player a partial path ends at. */
  function LastOf(t: seq<Step>): string {
    if t == [] then "" else t[|t| - 1].player
  }

  /** Player `prev` and player `s.player` both appear in film `s.movie`. */
  predicate Linked(db: Imdb, prev: string, s: Step) {
    prev in db.credits && s.movie in db.credits[prev] && s.movie in db.cast && s.player in db.cast[s.movie]
  }

  /** A partial path: the source with the dummy film, each later step linked to the one before. */
  predicate Chain(db: Imdb, source: string, t: seq<Step>) {
    |t| >= 1 && t[0] == Step(source, DUMMY_FILM) &&
    forall i :: 1 <= i < |t| ==> Linked(db, t[i - 1].player, t[i])
  }

  function Players(t: seq<Step>): set<string> {
    set i | 0 <= i < |t| :: t[i].player
  }

  predicate DistinctPlayers(t: seq<Step>) {
    forall i, j :: 0 <= i < j < |t| ==> t[i].player != t[j].player
  }

  /** The players the queued paths end at. */
  function Lasts(todo: seq<seq<Step>>): set<string> {
    set k | 0 <= k < |todo| :: LastOf(todo[k])
  }

  /** Queue order: lengths never decrease and differ by at most one. */
  predicate Fifo(todo: seq<seq<Step>>) {
    forall i, j :: 0 <= i < j < |todo| ==> |todo[i]| <= |todo[j]| <= |todo[i]| + 1
  }

  /** Every player the search can ever mark: the source and anyone in a cast list. */
  ghost function Universe(db: Imdb, source: string): set<string> {
    {source} + (set m, a | m in db.cast && a in db.cast[m] :: a)
  }

  /**
   * The queue of the search: chains without repeated players, in `Fifo`
   * order, ending at distinct players none of whom has been expanded; the
   * visited players are the expanded ones and the queued ends.
   */
  ghost predicate Queued(db: Imdb, source: string, todo: seq<seq<Step>>, visited: set<string>, expanded: set<string>) {
    (forall k :: 0 <= k < |todo| ==> Chain(db, source, todo[k]) && DistinctPlayers(todo[k]) && Players(todo[k]) <= visited) &&
    Fifo(todo) &&
    (forall i, j :: 0 <= i < j < |todo| ==> LastOf(todo[i]) != LastOf(todo[j])) &&
    (forall k :: 0 <= k < |todo| ==> LastOf(todo[k]) !in expanded) &&
    visited == expanded + Lasts(todo)
  }

  /**
   * What the search has covered: every player in a film whose cast was read
   * is visited, and every film of an expanded player has had its cast read.
   */
  ghost predicate Closed(db: Imdb, visited: set<string>, movies: set<Film>, expanded: set<string>) {
    (forall m, a | m in movies && m in db.cast && a in db.cast[m] :: a in visited) &&
    (forall p, m | p in expanded && p in db.credits && m in db.credits[p] :: m in movies)
  }

  /** Lengths of the queued paths lie between that of `curr` and one more. */
  predicate Around(todo: seq<seq<Step>>, curr: seq<Step>) {
    forall k :: 0 <= k < |todo| ==> |curr| <= |todo[k]| <= |curr| + 1
  }

  lemma LastsPop(todo: seq<seq<Step>>)
    requires todo != []
    ensures Lasts(todo) == Lasts(todo[1..]) + {LastOf(todo[0])}
  {
    forall x | x in Lasts(todo) ensures x in Lasts(todo[1..]) + {LastOf(todo[0])} {
      var k :| 0 <= k < |todo| && LastOf(todo[k]) == x;
      if k > 0 {
        assert todo[1..][k - 1] == todo[k];
      }
    }
    forall x | x in Lasts(todo[1..]) ensures x in Lasts(todo) {
      var k :| 0 <= k < |todo[1..]| && LastOf(todo[1..][k]) == x;
      assert todo[k + 1] == todo[1..][k];
    }
  }

  lemma LastsPush(todo: seq<seq<Step>>, p: seq<Step>)
    ensures Lasts(todo + [p]) == Lasts(todo) + {LastOf(p)}
  {
    var t := todo + [p];
    assert t[|todo|] == p;
    forall x | x in Lasts(t) ensures x in Lasts(todo) + {LastOf(p)} {
      var k :| 0 <= k < |t| && LastOf(t[k]) == x;
      if k < |todo| {
        assert t[k] == todo[k];
      }
    }
    forall x | x in Lasts(todo) ensures x in Lasts(t) {
      var k :| 0 <= k < |todo| && LastOf(todo[k]) == x;
      assert t[k] == todo[k];
    }
  }

  /** One step added to a chain whose end is linked to it, by a player not yet on it. */
  lemma Extend(db: Imdb, source: string, curr: seq<Step>, s: Step)
    requires Chain(db, source, curr) && DistinctPlayers(curr)
    requires Linked(db, LastOf(curr), s) && s.player !in Players(curr)
    ensures Chain(db, source, curr + [s]) && DistinctPlayers(curr + [s])
    ensures Players(curr + [s]) == Players(curr) + {s.player}
    ensures LastOf(curr + [s]) == s.player && |curr + [s]| == |curr| + 1
  {
    var t := curr + [s];
    forall i | 0 <= i < |curr| ensures t[i] == curr[i] && curr[i].player in Players(curr) {
    }
    forall x | x in Players(t) ensures x in Players(curr) + {s.player} {
      var i :| 0 <= i < |t| && t[i].player == x;
    }
    forall x | x in Players(curr) ensures x in Players(t) {
      var i :| 0 <= i < |curr| && curr[i].player == x;
      assert t[i] == curr[i];
    }
    assert t[|curr|] == s;
  }

  /** The queue after its front path is taken off and the front's end is expanded. */
  lemma QueuedPop(db: Imdb, source: string, todo: seq<seq<Step>>, visited: set<string>, expanded: set<string>)
    requires todo != [] && Queued(db, source, todo, visited, expanded)
    ensures Queued(db, source, todo[1..], visited, expanded + {LastOf(todo[0])})
    ensures Around(todo[1..], todo[0])
  {
    var rest := todo[1..];
    LastsPop(todo);
    forall k | 0 <= k < |rest| ensures rest[k] == todo[k + 1] && LastOf(rest[k]) != LastOf(todo[0]) {
    }
  }

  /** The queue after a path one step longer than `curr` is added at its back. */
  lemma QueuedPush(db: Imdb, source: string, todo: seq<seq<Step>>, visited: set<string>, done: set<string>,
                   curr: seq<Step>, s: Step)
    requires Queued(db, source, todo, visited, done) && Around(todo, curr)
    requires Chain(db, source, curr) && DistinctPlayers(curr) && Players(curr) <= visited
    requires Linked(db, LastOf(curr), s) && s.player !in visited
    ensures Queued(db, source, todo + [curr + [s]], visited + {s.player}, done)
    ensures Around(todo + [curr + [s]], curr)
  {
    var p := curr + [s];
    Extend(db, source, curr, s);
    LastsPush(todo, p);
    PushPaths(db, source, todo, visited, p);
    PushOrder(todo, curr, p);
    PushEnds(todo, done, p);
  }

  lemma PushPaths(db: Imdb, source: string, todo: seq<seq<Step>>, visited: set<string>, p: seq<Step>)
    requires forall k :: 0 <= k < |todo| ==> Chain(db, source, todo[k]) && DistinctPlayers(todo[k]) && Players(todo[k]) <= visited
    requires Chain(db, source, p) && DistinctPlayers(p) && Players(p) <= visited + {LastOf(p)}
    ensures forall k :: 0 <= k < |todo + [p]| ==>
      Chain(db, source, (todo + [p])[k]) && DistinctPlayers((todo + [p])[k]) && Players((todo + [p])[k]) <= visited + {LastOf(p)}
  {
    var t := todo + [p];
    forall k | 0 <= k < |t|
      ensures Chain(db, source, t[k]) && DistinctPlayers(t[k]) && Players(t[k]) <= visited + {LastOf(p)}
    {
      if k < |todo| {
        assert t[k] == todo[k];
      }
    }
  }

  lemma PushOrder(todo: seq<seq<Step>>, curr: seq<Step>, p: seq<Step>)
    requires Fifo(todo) && Around(todo, curr) && |p| == |curr| + 1
    ensures Fifo(todo + [p]) && Around(todo + [p], curr)
  {
    var t := todo + [p];
    forall k | 0 <= k < |todo| ensures t[k] == todo[k] {
    }
  }

  lemma PushEnds(todo: seq<seq<Step>>, done: set<string>, p: seq<Step>)
    requires forall i, j :: 0 <= i < j < |todo| ==> LastOf(todo[i]) != LastOf(todo[j])
    requires forall k :: 0 <= k < |todo| ==> LastOf(todo[k]) !in done
    requires LastOf(p) !in done + Lasts(todo)
    ensures forall i, j :: 0 <= i < j < |todo + [p]| ==> LastOf((todo + [p])[i]) != LastOf((todo + [p])[j])
    ensures forall k :: 0 <= k < |todo + [p]| ==> LastOf((todo + [p])[k]) !in done
  {
    var t := todo + [p];
    forall k | 0 <= k < |todo| ensures t[k] == todo[k] && LastOf(todo[k]) in Lasts(todo) {
    }
    assert t[|todo|] == p;
  }

  /**
   * The inner loop over one film's cast: each player not yet visited is
   * marked and queued behind a copy of `curr` extended by that player.
   */
  method ScanCast(db: Imdb, source: string, curr: seq<Step>, m: Film, todo: seq<seq<Step>>, visited: set<string>,
                  ghost done: set<string>)
    returns (todo': seq<seq<Step>>, visited': set<string>)
    requires LastOf(curr) in db.credits && m in db.credits[LastOf(curr)] && m in db.cast
    requires Chain(db, source, curr) && DistinctPlayers(curr) && Players(curr) <= visited
    requires Queued(db, source, todo, visited, done) && Around(todo, curr)
    ensures Queued(db, source, todo', visited', done) && Around(todo', curr)
    ensures forall a :: a in db.cast[m] ==> a in visited'
    ensures visited <= visited' && forall a :: a in visited' ==> a in visited || a in db.cast[m]
  {
    var neighborActors := db.cast[m];
    todo', visited' := todo, visited;
    var j := 0;
    while j < |neighborActors|
      invariant j <= |neighborActors|
      invariant Queued(db, source, todo', visited', done) && Around(todo', curr)
      invariant forall k :: 0 <= k < j ==> neighborActors[k] in visited'
      invariant visited <= visited' && forall a :: a in visited' ==> a in visited || a in neighborActors
    {
      var neighborActor := neighborActors[j];
      if neighborActor !in visited' {
        QueuedPush(db, source, todo', visited', done, curr, Step(neighborActor, m));
        visited' := visited' + {neighborActor};
        todo' := todo' + [curr + [Step(neighborActor, m)]];
      }
      j := j + 1;
    }
  }

  /**
   * The loop over the films of the player `curr` ends at: each film not seen
   * yet is marked and, when the database has its cast, its cast is scanned.
   */
  method ExpandCredits(db: Imdb, source: string, curr: seq<Step>, todo: seq<seq<Step>>, visited: set<string>,
                       movies: set<Film>, ghost expanded: set<string>)
    returns (todo': seq<seq<Step>>, visited': set<string>, movies': set<Film>)
    requires LastOf(curr) in db.credits && LastOf(curr) !in expanded
    requires Chain(db, source, curr) && DistinctPlayers(curr) && Players(curr) <= visited
    requires Queued(db, source, todo, visited, expanded + {LastOf(curr)}) && Around(todo, curr)
    requires Closed(db, visited, movies, expanded) && visited <= Universe(db, source)
    ensures Queued(db, source, todo', visited', expanded + {LastOf(curr)})
    ensures Closed(db, visited', movies', expanded + {LastOf(curr)}) && visited' <= Universe(db, source)
  {
    var name := LastOf(curr);
    var neighborMovies := db.credits[name];
    todo', visited', movies' := todo, visited, movies;
    var i := 0;
    while i < |neighborMovies|
      invariant i <= |neighborMovies|
      invariant Queued(db, source, todo', visited', expanded + {name}) && Around(todo', curr)
      invariant Players(curr) <= visited' && visited' <= Universe(db, source)
      invariant Closed(db, visited', movies', expanded)
      invariant forall k :: 0 <= k < i ==> neighborMovies[k] in movies'
    {
      var neighborMovie := neighborMovies[i];
      if neighborMovie !in movies' {
        movies' := movies' + {neighborMovie};
        if neighborMovie in db.cast {
          ghost var before := visited';
          todo', visited' := ScanCast(db, source, curr, neighborMovie, todo', visited', expanded + {name});
          CastInUniverse(db, source, neighborMovie, before, visited');
        }
      }
      i := i + 1;
    }
  }

  lemma CastInUniverse(db: Imdb, source: string, m: Film, before: set<string>, after: set<string>)
    requires m in db.cast && before <= Universe(db, source)
    requires forall a :: a in after ==> a in before || a in db.cast[m]
    ensures after <= Universe(db, source)
  {
    forall a | a in after ensures a in Universe(db, source) {
      if a !in before {
        assert a in (set m, a | m in db.cast && a in db.cast[m] :: a);
      }
    }
  }

  /** Every player on a chain is visited once the visited players are closed under expansion. */
  lemma {:induction false} ChainVisited(db: Imdb, source: string, visited: set<string>, movies: set<Film>,
                                        t: seq<Step>, i: nat)
    requires source in visited && Closed(db, visited, movies, visited)
    requires Chain(db, source, t) && i < |t|
    ensures t[i].player in visited
  {
    if i > 0 {
      ChainVisited(db, source, visited, movies, t, i - 1);
      assert Linked(db, t[i - 1].player, t[i]);
    }
  }

  /**
   * The search loop. Some chain from the source to the target when the
   * front of the queue reaches the target; None when the queue runs dry,
   * and then no chain of the database leads from the source to the target.
   */
  method Search(db: Imdb, source: string, target: string) returns (found: Option<seq<Step>>)
    ensures found.Some? ==> Chain(db, source, found.value) && LastOf(found.value) == target
    ensures found.Some? ==> DistinctPlayers(found.value)
    ensures found.None? ==> forall t :: Chain(db, source, t) ==> LastOf(t) != target
  {
    var todo: seq<seq<Step>> := [[Step(source, DUMMY_FILM)]];
    var visitedActor: set<string> := {source};
    var visitedMovie: set<Film> := {};
    ghost var expanded: set<string> := {};
    assert Lasts(todo) == {source} by {
      assert LastOf(todo[0]) == source;
    }
    assert Players(todo[0]) == {source} by {
      assert todo[0][0].player == source;
    }
    while todo != []
      invariant Queued(db, source, todo, visitedActor, expanded)
      invariant Closed(db, visitedActor, visitedMovie, expanded)
      invariant source in visitedActor && visitedActor <= Universe(db, source)
      invariant target !in expanded
      decreases Universe(db, source) - expanded
    {
      var currVect := todo[0];
      var currName := LastOf(currVect);
      if currName == target {
        break;
      }
      QueuedPop(db, source, todo, visitedActor, expanded);
      todo := todo[1..];
      if currName in db.credits {
        todo, visitedActor, visitedMovie := ExpandCredits(db, source, currVect, todo, visitedActor, visitedMovie, expanded);
      }
      expanded := expanded + {currName};
    }
    if todo == [] || todo[0] == [] {
      forall t | Chain(db, source, t) ensures LastOf(t) != target {
        ChainVisited(db, source, visitedActor, visitedMovie, t, |t| - 1);
      }
      return None;
    }
    return Some(todo[0]);
  }

  /** The links of the printed path: every step but the first, in order. */
  function LinksOf(vec: seq<Step>): (r: seq<Connection>)
    requires |vec| >= 1
    ensures |r| == |vec| - 1
    ensures forall i :: 1 <= i < |vec| ==> r[i - 1] == Connection(vec[i].movie, vec[i].player)
  {
    seq(|vec| - 1, i requires 0 <= i < |vec| - 1 => Connection(vec[i + 1].movie, vec[i + 1].player))
  }

  const NO_PATH_TEXT: string := "No path between those two people could be found.\n"

  /**
   * What `search` writes for a source and a target: the no-path message,
   * or the path built from the chain found, starting at the source.
   */
  method Report(db: Imdb, source: string, target: string) returns (out: string, ghost result: Option<seq<Step>>)
    ensures result.None? ==> out == NO_PATH_TEXT && forall t :: Chain(db, source, t) ==> LastOf(t) != target
    ensures result.Some? ==> Chain(db, source, result.value) && LastOf(result.value) == target
    ensures result.Some? ==> out == PathText(source, LinksOf(result.value))
  {
    var found := Search(db, source, target);
    result := found;
    if found.None? {
      return NO_PATH_TEXT, result;
    }
    var vec := found.value;
    var p := new Path(vec[0].player);
    var i := 1;
    while i < |vec|
      invariant 1 <= i <= |vec|
      invariant p.startPlayer == source && p.links == LinksOf(vec)[..i - 1]
    {
      p.AddConnection(vec[i].movie, vec[i].player);
      i := i + 1;
    }
    assert p.links == LinksOf(vec);
    out := p.Print();
  }
}

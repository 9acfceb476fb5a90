/**
 * The persistent side of the service: the `actor` and `movie` tables, the
 * `association` table that links them many-to-many, the entity methods
 * `insert`, `delete`, `get_actors`, `get_movies` and `format`, and the sweep
 * that runs after every flush and deletes each movie left without actors.
 */
module Models {
  import opened Wrappers
  import opened Dates

  // ---------------------------------------------------------------- values

  datatype Gender = Male | Female

  /** `gender.value`: the one-letter code stored in the enumeration. */
  function GenderValue(g: Gender): (code: string)
    ensures code == "M" || code == "F"
    ensures code == "M" <==> g == Male
  {
    match g
    case Male => "M"
    case Female => "F"
  }

  /** `Gender(code)`: lookup by value; any other value, absent included, raises. */
  function GenderOf(code: Option<string>): (r: Option<Gender>)
    ensures r.Some? <==> code == Some("M") || code == Some("F")
    ensures r.Some? ==> code == Some(GenderValue(r.value))
  {
    if code == Some("M") then Some(Male)
    else if code == Some("F") then Some(Female)
    else None
  }

  /** Reading back a gender's value gives the same gender. */
  lemma GenderRoundTrip(g: Gender)
    ensures GenderOf(Some(GenderValue(g))) == Some(g)
  {
  }

  /** One row of `actor` without its primary key. */
  datatype ActorRow = ActorRow(name: string, age: int, gender: Gender)

  /** One row of `movie` without its primary key. */
  datatype MovieRow = MovieRow(title: string, release: Date)

  /** One row of `association`. */
  datatype Link = Link(movie: int, actor: int)

  /** The dictionaries returned by `Actor.format` and `Movie.format`. */
  datatype ActorView = ActorView(id: int, name: string, age: int, gender: string, moviesId: seq<int>)
  datatype MovieView = MovieView(id: int, title: string, dateRelease: string, actorsId: seq<int>)

  // ------------------------------------------------------- column widths

  /** `db.String(255)` */
  const MaxStringLength := 255
  /** `db.Integer`: a signed 32-bit column. */
  const MinInteger := -0x8000_0000
  const MaxInteger := 0x7fff_ffff

  /**
   * Storing `s` in a `String(255)` column, as PostgreSQL assigns to a
   * `varchar(255)`: a longer value is refused unless every character past the
   * limit is a space, and then it is cut to the limit.
   */
  function FitString(s: string): (r: Option<string>)
    ensures r.Some? <==> forall i :: MaxStringLength <= i < |s| ==> s[i] == ' '
    ensures r.Some? ==> |r.value| <= MaxStringLength && r.value <= s
    ensures r.Some? ==> forall i :: |r.value| <= i < |s| ==> s[i] == ' '
    ensures |s| <= MaxStringLength ==> r == Some(s)
    ensures r.Some? && |s| > MaxStringLength ==> r.value == s[..MaxStringLength]
  {
    if |s| <= MaxStringLength then Some(s)
    else if forall i :: MaxStringLength <= i < |s| ==> s[i] == ' ' then Some(s[..MaxStringLength])
    else None
  }

  /** The storage engine accepts the row: every value fits its column. */
  predicate ActorStorable(r: ActorRow) {
    FitString(r.name).Some? && MinInteger <= r.age <= MaxInteger
  }

  predicate MovieStorable(r: MovieRow) {
    FitString(r.title).Some?
  }

  /** The actor row as the engine stores it: only trailing spaces are cut. */
  function StoredActor(r: ActorRow): (s: ActorRow)
    requires ActorStorable(r)
    ensures |s.name| <= MaxStringLength && s.name <= r.name
    ensures s.age == r.age && s.gender == r.gender
    ensures |r.name| <= MaxStringLength ==> s == r
    ensures |r.name| > MaxStringLength ==> s.name == r.name[..MaxStringLength]
    ensures forall i :: |s.name| <= i < |r.name| ==> r.name[i] == ' '
  {
    r.(name := FitString(r.name).value)
  }

  /** The movie row as the engine stores it: only trailing spaces are cut. */
  function StoredMovie(r: MovieRow): (s: MovieRow)
    requires MovieStorable(r)
    ensures |s.title| <= MaxStringLength && s.title <= r.title
    ensures s.release == r.release
    ensures |r.title| <= MaxStringLength ==> s == r
    ensures |r.title| > MaxStringLength ==> s.title == r.title[..MaxStringLength]
    ensures forall i :: |s.title| <= i < |r.title| ==> r.title[i] == ' '
  {
    r.(title := FitString(r.title).value)
  }

  // ------------------------------------------------------------ sequences

  predicate NoDup<T(==)>(s: seq<T>) {
    forall i, j :: 0 <= i < j < |s| ==> s[i] != s[j]
  }

  lemma NoDupCons<T>(x: T, s: seq<T>)
    ensures NoDup([x] + s) <==> x !in s && NoDup(s)
  {
    var t := [x] + s;
    if x in s {
      var k :| 0 <= k < |s| && s[k] == x;
      assert t[0] == t[k + 1];
    }
    if NoDup(t) {
      forall i, j | 0 <= i < j < |s| ensures s[i] != s[j] {
        assert s[i] == t[i + 1] && s[j] == t[j + 1];
      }
    }
  }

  lemma NoDupConcat<T>(a: seq<T>, b: seq<T>)
    requires NoDup(a) && NoDup(b)
    requires forall x :: x in a ==> x !in b
    ensures NoDup(a + b)
  {
    var t := a + b;
    forall i, j | 0 <= i < j < |t| ensures t[i] != t[j] {
      if j < |a| {
      } else if i >= |a| {
        assert t[i] == b[i - |a|] && t[j] == b[j - |a|];
      } else {
        assert t[i] in a && t[j] == b[j - |a|];
      }
    }
  }

  // -------------------------------------------------------- association

  /** The rows `actor.movies = ids` creates for a new actor `a`. */
  function LinksOfActor(a: int, ids: seq<int>): (r: seq<Link>)
    ensures |r| == |ids|
    ensures forall l :: l in r <==> l.actor == a && l.movie in ids
    ensures NoDup(ids) ==> NoDup(r)
  {
    if ids == [] then []
    else
      var rest := LinksOfActor(a, ids[1..]);
      NoDupCons(ids[0], ids[1..]);
      NoDupCons(Link(ids[0], a), rest);
      assert ids == [ids[0]] + ids[1..];
      [Link(ids[0], a)] + rest
  }

  /** The rows `Movie(..., actors=ids)` creates for a new movie `m`. */
  function LinksOfMovie(m: int, ids: seq<int>): (r: seq<Link>)
    ensures |r| == |ids|
    ensures forall l :: l in r <==> l.movie == m && l.actor in ids
    ensures NoDup(ids) ==> NoDup(r)
  {
    if ids == [] then []
    else
      var rest := LinksOfMovie(m, ids[1..]);
      NoDupCons(ids[0], ids[1..]);
      NoDupCons(Link(m, ids[0]), rest);
      assert ids == [ids[0]] + ids[1..];
      [Link(m, ids[0])] + rest
  }

  /** `m.actors` as ids: one entry per row naming movie `m`, in row order. */
  function ActorsOf(links: seq<Link>, m: int): (r: seq<int>)
    ensures forall a :: a in r <==> Link(m, a) in links
  {
    if links == [] then []
    else
      var last := links[|links| - 1];
      ActorsOf(links[..|links| - 1], m) + (if last.movie == m then [last.actor] else [])
  }

  /** `a.movies` as ids: one entry per row naming actor `a`, in row order. */
  function MoviesOf(links: seq<Link>, a: int): (r: seq<int>)
    ensures forall m :: m in r <==> Link(m, a) in links
  {
    if links == [] then []
    else
      var last := links[|links| - 1];
      MoviesOf(links[..|links| - 1], a) + (if last.actor == a then [last.movie] else [])
  }

  /** `m.actors` lists `a` once for every row linking them. */
  lemma {:induction false} ActorsOfCount(links: seq<Link>, m: int, a: int)
    ensures multiset(ActorsOf(links, m))[a] == multiset(links)[Link(m, a)]
  {
    if links != [] {
      var init := links[..|links| - 1];
      ActorsOfCount(init, m, a);
      assert links == init + [links[|links| - 1]];
    }
  }

  /** `a.movies` lists `m` once for every row linking them. */
  lemma {:induction false} MoviesOfCount(links: seq<Link>, m: int, a: int)
    ensures multiset(MoviesOf(links, a))[m] == multiset(links)[Link(m, a)]
  {
    if links != [] {
      var init := links[..|links| - 1];
      MoviesOfCount(init, m, a);
      assert links == init + [links[|links| - 1]];
    }
  }

  /**
   * The relationship and its backref agree: `a` occurs in `m.actors` exactly
   * as often as `m` occurs in `a.movies`.
   */
  lemma CastSymmetric(links: seq<Link>, m: int, a: int)
    ensures multiset(ActorsOf(links, m))[a] == multiset(MoviesOf(links, a))[m]
    ensures a in ActorsOf(links, m) <==> m in MoviesOf(links, a)
  {
    ActorsOfCount(links, m, a);
    MoviesOfCount(links, m, a);
  }

  /** Without duplicate rows, `get_actors` names each actor at most once. */
  lemma {:induction false} ActorsOfNoDup(links: seq<Link>, m: int)
    requires NoDup(links)
    ensures NoDup(ActorsOf(links, m))
  {
    if links != [] {
      var init := links[..|links| - 1];
      var last := links[|links| - 1];
      assert NoDup(init) by {
        forall i, j | 0 <= i < j < |init| ensures init[i] != init[j] {
          assert init[i] == links[i] && init[j] == links[j];
        }
      }
      ActorsOfNoDup(init, m);
      if last.movie == m {
        assert last !in init;
        NoDupConcat(ActorsOf(init, m), [last.actor]);
      }
    }
  }

  /** `session.delete(actor)` removes every row naming the actor. */
  function WithoutActor(links: seq<Link>, a: int): (r: seq<Link>)
    ensures forall l :: l in r <==> l in links && l.actor != a
    ensures NoDup(links) ==> NoDup(r)
  {
    if links == [] then []
    else
      var rest := WithoutActor(links[1..], a);
      NoDupCons(links[0], links[1..]);
      NoDupCons(links[0], rest);
      assert links == [links[0]] + links[1..];
      (if links[0].actor == a then [] else [links[0]]) + rest
  }

  /** `session.delete(movie)` removes every row naming the movie. */
  function WithoutMovie(links: seq<Link>, m: int): (r: seq<Link>)
    ensures forall l :: l in r <==> l in links && l.movie != m
    ensures NoDup(links) ==> NoDup(r)
  {
    if links == [] then []
    else
      var rest := WithoutMovie(links[1..], m);
      NoDupCons(links[0], links[1..]);
      NoDupCons(links[0], rest);
      assert links == [links[0]] + links[1..];
      (if links[0].movie == m then [] else [links[0]]) + rest
  }

  // --------------------------------------------------------------- sweep

  /** `Movie.actors.any()` */
  predicate HasActor(links: seq<Link>, m: int): (b: bool)
    ensures b <==> exists a :: Link(m, a) in links
  {
    exists l :: l in links && l.movie == m
  }

  /** `Movie.actors.any()` holds exactly when `m.actors` is non-empty. */
  lemma HasActorIsCastNonEmpty(links: seq<Link>, m: int)
    ensures HasActor(links, m) <==> ActorsOf(links, m) != []
  {
    if HasActor(links, m) {
      var l :| l in links && l.movie == m;
      assert l.actor in ActorsOf(links, m);
    }
    if ActorsOf(links, m) != [] {
      assert Link(m, ActorsOf(links, m)[0]) in links;
    }
  }

  /**
   * The join `any()` performs: while every row names a live actor, a movie has
   * an actor exactly when some stored actor is linked to it.
   */
  lemma HasActorJoin(links: seq<Link>, actors: map<int, ActorRow>, movies: map<int, MovieRow>, m: int)
    requires Intact(links, actors, movies)
    ensures HasActor(links, m) <==> exists a :: a in actors && Link(m, a) in links
  {
    if HasActor(links, m) {
      var l :| l in links && l.movie == m;
      assert l.actor in actors && Link(m, l.actor) in links;
    }
  }

  /** No movie is left without actors. */
  ghost predicate NoOrphans(movies: map<int, MovieRow>, links: seq<Link>) {
    forall m :: m in movies ==> HasActor(links, m)
  }

  /** Every association row names a live movie and a live actor. */
  ghost predicate Intact(links: seq<Link>, actors: map<int, ActorRow>, movies: map<int, MovieRow>) {
    forall l :: l in links ==> l.movie in movies && l.actor in actors
  }

  /** `after_flush`: delete every movie with no association row. */
  function Sweep(movies: map<int, MovieRow>, links: seq<Link>): (r: map<int, MovieRow>)
    ensures NoOrphans(r, links)
    ensures forall m :: m in r ==> m in movies && r[m] == movies[m]
    ensures forall m :: m in movies && HasActor(links, m) ==> m in r
  {
    map m | m in movies && HasActor(links, m) :: movies[m]
  }

  /** With no orphan present the sweep deletes nothing; in particular it is idempotent. */
  lemma SweepNoOrphans(movies: map<int, MovieRow>, links: seq<Link>)
    requires NoOrphans(movies, links)
    ensures Sweep(movies, links) == movies
  {
    assert Sweep(movies, links).Keys == movies.Keys;
  }

  /**
   * A movie inserted with the given actors survives the sweep exactly when it
   * has one; every movie already present survives.
   */
  lemma SweepNewMovie(movies: map<int, MovieRow>, links: seq<Link>, m: int, row: MovieRow, actorIds: seq<int>)
    requires NoOrphans(movies, links)
    requires forall l :: l in links ==> l.movie in movies
    requires m !in movies
    ensures Sweep(movies[m := row], links + LinksOfMovie(m, actorIds))
            == if actorIds == [] then movies else movies[m := row]
  {
    var after := links + LinksOfMovie(m, actorIds);
    if actorIds == [] {
      assert after == links;
      forall l | l in links ensures l.movie != m {
        assert l.movie in movies;
      }
      assert Sweep(movies[m := row], after).Keys == movies.Keys;
    } else {
      assert Link(m, actorIds[0]) in after;
      SweepNoOrphans(movies[m := row], after) by {
        forall k | k in movies[m := row] ensures HasActor(after, k) {
          if k != m {
            var l :| l in links && l.movie == k;
            assert l in after;
          }
        }
      }
    }
  }

  lemma SweepIdempotent(movies: map<int, MovieRow>, links: seq<Link>)
    ensures Sweep(Sweep(movies, links), links) == Sweep(movies, links)
  {
    SweepNoOrphans(Sweep(movies, links), links);
  }

  /**
   * Deleting actor `a` and sweeping removes exactly the movies whose every
   * row names `a`; every other movie stays, with its other actors.
   */
  lemma DeleteActorSweep(movies: map<int, MovieRow>, links: seq<Link>, a: int, m: int)
    requires m in movies
    ensures m in Sweep(movies, WithoutActor(links, a)) <==> exists b :: b != a && Link(m, b) in links
    ensures m in Sweep(movies, WithoutActor(links, a)) ==>
              forall b :: b != a ==> (b in ActorsOf(WithoutActor(links, a), m) <==> b in ActorsOf(links, m))
  {
    var rest := WithoutActor(links, a);
    if exists b :: b != a && Link(m, b) in links {
      var b :| b != a && Link(m, b) in links;
      assert Link(m, b) in rest;
    }
  }

  // --------------------------------------------------------------- store

  /**
   * The database as the session sees it. Primary keys come from per-table
   * counters; a flush happens at the end of every insert and delete.
   */
  class Store {
    var actors: map<int, ActorRow>
    var movies: map<int, MovieRow>
    var links: seq<Link>
    var nextActorId: int
    var nextMovieId: int

    /** Every movie key lies below the counter and every release date is a calendar date. */
    ghost predicate MoviesKeyed()
      reads this
    {
      && 1 <= nextMovieId
      && (forall m :: m in movies ==> 1 <= m < nextMovieId)
      && (forall m :: m in movies ==> ValidDate(movies[m].release))
    }

    ghost predicate Valid()
      reads this
    {
      && 1 <= nextActorId
      && (forall a :: a in actors ==> 1 <= a < nextActorId && ActorStorable(actors[a]))
      && (forall m :: m in movies ==> MovieStorable(movies[m]))
      && MoviesKeyed()
      && Intact(links, actors, movies)
      && NoDup(links)
      && NoOrphans(movies, links)
    }

    constructor ()
      ensures Valid()
      ensures actors == map[] && movies == map[] && links == []
    {
      actors, movies, links := map[], map[], [];
      nextActorId, nextMovieId := 1, 1;
    }

    /** The `after_flush` hook. */
    method AfterFlush()
      modifies this
      ensures movies == Sweep(old(movies), links)
      ensures actors == old(actors) && links == old(links)
      ensures nextActorId == old(nextActorId) && nextMovieId == old(nextMovieId)
    {
      movies := Sweep(movies, links);
    }

    /**
     * `Actor.insert` for a new actor whose `movies` are `movieIds`. Fails,
     * changing nothing, when the row does not fit its columns.
     */
    method InsertActor(row: ActorRow, movieIds: seq<int>) returns (id: Option<int>)
      requires Valid()
      requires NoDup(movieIds) && forall m :: m in movieIds ==> m in movies
      modifies this
      ensures Valid()
      ensures id.Some? <==> ActorStorable(row)
      ensures id.Some? ==>
                && id.value == old(nextActorId) && id.value !in old(actors)
                && actors == old(actors)[id.value := StoredActor(row)]
                && links == old(links) + LinksOfActor(id.value, movieIds)
                && movies == old(movies)
                && nextActorId == old(nextActorId) + 1 && nextMovieId == old(nextMovieId)
      ensures id.None? ==> unchanged(this)
    {
      if !ActorStorable(row) {
        return None;
      }
      var a := nextActorId;
      var added := LinksOfActor(a, movieIds);
      forall l | l in links ensures l !in added {
        assert l.actor in actors;
      }
      NoDupConcat(links, added);
      actors := actors[a := StoredActor(row)];
      links := links + added;
      nextActorId := a + 1;
      AfterFlush();
      SweepNoOrphans(old(movies), links) by {
        forall m | m in old(movies) ensures HasActor(links, m) {
          var l :| l in old(links) && l.movie == m;
          assert l in links;
        }
      }
      id := Some(a);
    }

    /**
     * `Movie.insert` for a new movie whose `actors` are `actorIds`. A movie
     * inserted with no actors is deleted again by the flush's sweep.
     */
    method InsertMovie(row: MovieRow, actorIds: seq<int>) returns (id: Option<int>)
      requires Valid()
      requires ValidDate(row.release)
      requires NoDup(actorIds) && forall a :: a in actorIds ==> a in actors
      modifies this
      ensures Valid()
      ensures id.Some? <==> MovieStorable(row)
      ensures id.Some? ==>
                && id.value == old(nextMovieId) && id.value !in old(movies)
                && movies == (if actorIds == [] then old(movies) else old(movies)[id.value := StoredMovie(row)])
                && links == old(links) + LinksOfMovie(id.value, actorIds)
                && actors == old(actors)
                && nextMovieId == old(nextMovieId) + 1 && nextActorId == old(nextActorId)
      ensures id.None? ==> unchanged(this)
    {
      if !MovieStorable(row) {
        return None;
      }
      var m := nextMovieId;
      var added := LinksOfMovie(m, actorIds);
      forall l | l in links ensures l !in added {
        assert l.movie in movies;
      }
      NoDupConcat(links, added);
      SweepNewMovie(movies, links, m, StoredMovie(row), actorIds);
      movies := movies[m := StoredMovie(row)];
      links := links + added;
      nextMovieId := m + 1;
      AfterFlush();
      id := Some(m);
    }

    /**
     * `Actor.delete`: the actor and its rows go; the sweep then deletes the
     * movies it was the only actor of.
     */
    method DeleteActor(a: int)
      requires Valid() && a in actors
      modifies this
      ensures Valid()
      ensures actors == old(actors) - {a}
      ensures links == WithoutActor(old(links), a)
      ensures movies == Sweep(old(movies), links)
      ensures nextActorId == old(nextActorId) && nextMovieId == old(nextMovieId)
    {
      actors := actors - {a};
      links := WithoutActor(links, a);
      AfterFlush();
      forall l | l in links ensures l.movie in movies {
        assert Link(l.movie, l.actor) in links;
      }
    }

    /** `Movie.delete`: the movie and its rows go; no actor is touched. */
    method DeleteMovie(m: int)
      requires Valid() && m in movies
      modifies this
      ensures Valid()
      ensures movies == old(movies) - {m}
      ensures links == WithoutMovie(old(links), m)
      ensures actors == old(actors)
      ensures nextActorId == old(nextActorId) && nextMovieId == old(nextMovieId)
    {
      movies := movies - {m};
      links := WithoutMovie(links, m);
      ghost var before := movies;
      AfterFlush();
      SweepNoOrphans(before, links) by {
        forall k | k in before ensures HasActor(links, k) {
          var l :| l in old(links) && l.movie == k;
          assert l in links;
        }
      }
    }

    /** `Movie.get_actors` */
    method GetActors(m: int) returns (ids: seq<int>)
      ensures ids == ActorsOf(links, m)
    {
      ids := [];
      var i := 0;
      while i < |links|
        invariant 0 <= i <= |links|
        invariant ids == ActorsOf(links[..i], m)
      {
        assert links[..i + 1][..i] == links[..i];
        if links[i].movie == m {
          ids := ids + [links[i].actor];
        }
        i := i + 1;
      }
      assert links[..|links|] == links;
    }

    /** `Actor.get_movies` */
    method GetMovies(a: int) returns (ids: seq<int>)
      ensures ids == MoviesOf(links, a)
    {
      ids := [];
      var i := 0;
      while i < |links|
        invariant 0 <= i <= |links|
        invariant ids == MoviesOf(links[..i], a)
      {
        assert links[..i + 1][..i] == links[..i];
        if links[i].actor == a {
          ids := ids + [links[i].movie];
        }
        i := i + 1;
      }
      assert links[..|links|] == links;
    }

    /** `Actor.format` */
    function FormatActor(a: int): (v: ActorView)
      reads this
      requires a in actors
      ensures v.id == a && v.name == actors[a].name && v.age == actors[a].age
      ensures GenderOf(Some(v.gender)) == Some(actors[a].gender)
      ensures forall m :: m in v.moviesId <==> Link(m, a) in links
    {
      var row := actors[a];
      GenderRoundTrip(row.gender);
      ActorView(a, row.name, row.age, GenderValue(row.gender), MoviesOf(links, a))
    }

    /** `Movie.format` */
    function FormatMovie(m: int): (v: MovieView)
      reads this
      requires m in movies && ValidDate(movies[m].release)
      ensures v.id == m && v.title == movies[m].title
      ensures v.dateRelease == FormatDate(movies[m].release)
      ensures forall a :: a in v.actorsId <==> Link(m, a) in links
    {
      var row := movies[m];
      MovieView(m, row.title, FormatDate(row.release), ActorsOf(links, m))
    }
  }
}

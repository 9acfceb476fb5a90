/**
 * The request handlers: listing, deleting and adding actors and movies, with
 * the existence checks on cross-referenced ids and the mapping of every
 * outcome to one of the statuses 200, 400, 404 and 422.
 */
module App {
  import opened Wrappers
  import opened Dates
  import opened Models

  // ------------------------------------------------------------ responses

  /** The JSON body of a successful reply. */
  datatype Body =
    | ActorList(actors: seq<ActorView>, totalActors: int)
    | MovieList(movies: seq<MovieView>, totalMovies: int)
    | ActorDeleted(actorId: int)
    | MovieDeleted(movieId: int)
    | ActorCreated(actorId: int)
    | MovieCreated(movieId: int)

  /** How a request ends: success, or one of the three error handlers. */
  datatype Response = Success(body: Body) | BadRequest | NotFound | Unprocessable
  {
    /** The HTTP status; each outcome has its own. */
    function Status(): (code: int)
      ensures code == 200 <==> Success?
      ensures code == 400 <==> BadRequest?
      ensures code == 404 <==> NotFound?
      ensures code == 422 <==> Unprocessable?
    {
      match this
      case Success(_) => 200
      case BadRequest => 400
      case NotFound => 404
      case Unprocessable => 422
    }

    /** The `message` field of an error reply. */
    function Message(): (msg: string)
      requires !Success?
      ensures msg == "bad request" <==> BadRequest?
      ensures msg == "resource not found" <==> NotFound?
      ensures msg == "unprocessable" <==> Unprocessable?
    {
      match this
      case BadRequest => "bad request"
      case NotFound => "resource not found"
      case Unprocessable => "unprocessable"
    }
  }

  /** Distinct error outcomes carry distinct messages. */
  lemma MessagesDistinct(r1: Response, r2: Response)
    requires !r1.Success? && !r2.Success?
    ensures r1.Message() == r2.Message() <==> r1 == r2
  {
  }

  // ------------------------------------------------------------- requests

  /** A POST /actors body; an absent `movies_id` reads as the empty list. */
  datatype ActorRequest = ActorRequest(name: Option<string>, age: Option<int>, gender: Option<string>, moviesId: seq<int>)

  /** A POST /movies body; an absent `actors_id` reads as the empty list. */
  datatype MovieRequest = MovieRequest(title: Option<string>, dateRelease: Option<string>, actorsId: seq<int>)

  // ------------------------------------------------------ existence checks

  /** `list(set(s))`: every element once. */
  function Distinct(s: seq<int>): (r: seq<int>)
    ensures NoDup(r)
    ensures forall x :: x in r <==> x in s
  {
    if s == [] then []
    else
      var rest := Distinct(s[1..]);
      NoDupCons(s[0], rest);
      if s[0] in rest then rest else [s[0]] + rest
  }

  /** A sequence has at most as many distinct elements as entries, and as many exactly when it has no duplicate. */
  lemma {:induction false} DistinctCount<T>(s: seq<T>)
    ensures |set x | x in s| <= |s|
    ensures |set x | x in s| == |s| <==> NoDup(s)
  {
    if s != [] {
      var t := s[1..];
      DistinctCount(t);
      assert s == [s[0]] + t;
      NoDupCons(s[0], t);
      assert (set x | x in s) == (set x | x in t) + {s[0]};
    }
  }

  lemma SubsetSize(a: set<int>, b: set<int>)
    requires a <= b
    ensures |a| <= |b|
    ensures a != b ==> |a| < |b|
  {
    assert b == a + (b - a);
    assert a * (b - a) == {};
    if a != b {
      assert b - a != {};
    }
  }

  /** The count comparison succeeds exactly when the ids are distinct and all present. */
  lemma CountsAgree(keys: set<int>, ids: seq<int>)
    ensures |set i | i in ids && i in keys| == |ids| <==> NoDup(ids) && forall i :: i in ids ==> i in keys
  {
    var found := set i | i in ids && i in keys;
    var requested := set i | i in ids;
    DistinctCount(ids);
    SubsetSize(found, requested);
    if forall i :: i in ids ==> i in keys {
      assert found == requested;
    }
    if |found| == |ids| {
      assert found == requested;
      forall i | i in ids ensures i in keys {
        assert i in requested;
      }
    }
  }

  /**
   * The existence check shared by `check_movies_exist` and
   * `check_actors_exist`: fetch the keys among `ids`, then compare counts.
   */
  function CheckExist(keys: set<int>, ids: seq<int>): (r: Option<set<int>>)
    ensures r.Some? <==> NoDup(ids) && forall i :: i in ids ==> i in keys
    ensures r.Some? ==> forall i :: i in r.value <==> i in ids
  {
    var found := set i | i in ids && i in keys;
    CountsAgree(keys, ids);
    if |found| == |ids| then Some(found) else None
  }

  /** Coalescing duplicates first makes the check depend on the set of ids only. */
  lemma CheckIgnoresDuplicates(keys: set<int>, ids1: seq<int>, ids2: seq<int>)
    requires forall i :: i in ids1 <==> i in ids2
    ensures CheckExist(keys, Distinct(ids1)) == CheckExist(keys, Distinct(ids2))
    ensures CheckExist(keys, Distinct(ids1)).Some? <==> forall i :: i in ids1 ==> i in keys
  {
    var r1, r2 := CheckExist(keys, Distinct(ids1)), CheckExist(keys, Distinct(ids2));
    if r1.Some? {
      assert forall i :: i in r1.value <==> i in r2.value;
      assert r1.value == r2.value;
    }
  }

  /** `check_movies_exist` */
  function CheckMoviesExist(db: Store, ids: seq<int>): (r: Option<set<int>>)
    reads db
    ensures r.Some? <==> NoDup(ids) && forall i :: i in ids ==> i in db.movies
    ensures r.Some? ==> forall i :: i in r.value <==> i in ids
  {
    CheckExist(db.movies.Keys, ids)
  }

  /** `check_actors_exist` */
  function CheckActorsExist(db: Store, ids: seq<int>): (r: Option<set<int>>)
    reads db
    ensures r.Some? <==> NoDup(ids) && forall i :: i in ids ==> i in db.actors
    ensures r.Some? ==> forall i :: i in r.value <==> i in ids
  {
    CheckExist(db.actors.Keys, ids)
  }

  // ------------------------------------------------------------ add_actor

  predicate MissingActorField(body: Option<ActorRequest>) {
    body.None? || body.value.name.None? || body.value.age.None?
  }

  /** `Actor(name=..., age=..., gender=Gender(gender))`, or None when `Gender` raises. */
  function NewActor(req: ActorRequest): (r: Option<ActorRow>)
    requires req.name.Some? && req.age.Some?
    ensures r.Some? <==> req.gender == Some("M") || req.gender == Some("F")
    ensures r.Some? ==>
              && r.value.name == req.name.value && r.value.age == req.age.value
              && req.gender == Some(GenderValue(r.value.gender))
  {
    match GenderOf(req.gender)
    case None => None
    case Some(g) => Some(ActorRow(req.name.value, req.age.value, g))
  }

  /**
   * The reply of `add_actor`, given the keys of the movies present and the key
   * the next actor gets.
   */
  function AddActorResponse(movieKeys: set<int>, nextId: int, body: Option<ActorRequest>): (r: Response)
    ensures r.BadRequest? <==> MissingActorField(body)
    ensures r.NotFound? <==>
              && !MissingActorField(body)
              && (body.value.moviesId == [] || exists m :: m in body.value.moviesId && m !in movieKeys)
    ensures r.Unprocessable? <==>
              && !MissingActorField(body)
              && body.value.moviesId != [] && (forall m :: m in body.value.moviesId ==> m in movieKeys)
              && (NewActor(body.value).None? || !ActorStorable(NewActor(body.value).value))
    ensures r.Success? ==> r.body == ActorCreated(nextId)
  {
    if MissingActorField(body) then BadRequest
    else
      var req := body.value;
      var movies := CheckExist(movieKeys, Distinct(req.moviesId));
      if movies.None? || movies.value == {} then
        NotFound
      else
        match NewActor(req)
        case None => Unprocessable
        case Some(row) => if ActorStorable(row) then Success(ActorCreated(nextId)) else Unprocessable
  }

  /** Two bodies that differ only in repeated movie ids get the same reply. */
  lemma AddActorIgnoresDuplicates(movieKeys: set<int>, nextId: int, req1: ActorRequest, req2: ActorRequest)
    requires req1.(moviesId := req2.moviesId) == req2
    requires forall m :: m in req1.moviesId <==> m in req2.moviesId
    ensures AddActorResponse(movieKeys, nextId, Some(req1)) == AddActorResponse(movieKeys, nextId, Some(req2))
  {
    CheckIgnoresDuplicates(movieKeys, req1.moviesId, req2.moviesId);
  }

  /** POST /actors */
  method AddActor(db: Store, body: Option<ActorRequest>) returns (resp: Response)
    requires db.Valid()
    modifies db
    ensures db.Valid()
    ensures resp == AddActorResponse(old(db.movies.Keys), old(db.nextActorId), body)
    ensures resp.Success? ==>
              && db.actors == old(db.actors)[old(db.nextActorId) := StoredActor(NewActor(body.value).value)]
              && db.links == old(db.links) + LinksOfActor(old(db.nextActorId), Distinct(body.value.moviesId))
              && db.movies == old(db.movies)
              && db.nextActorId == old(db.nextActorId) + 1 && db.nextMovieId == old(db.nextMovieId)
    ensures resp.Success? ==>
              forall m :: Link(m, resp.body.actorId) in db.links <==> m in body.value.moviesId
    ensures !resp.Success? ==> unchanged(db)
  {
    if body.None? {
      return BadRequest;
    }
    var req := body.value;
    var movieIds := Distinct(req.moviesId);
    if req.name.None? || req.age.None? {
      return BadRequest;
    }
    var movies := CheckMoviesExist(db, movieIds);
    if movies.None? || movies.value == {} {
      return NotFound;
    }
    var row := NewActor(req);
    if row.None? {
      return Unprocessable;
    }
    var id := db.InsertActor(row.value, movieIds);
    if id.None? {
      return Unprocessable;
    }
    forall l | l in old(db.links) ensures l.actor != id.value {
      assert l.actor in old(db.actors);
    }
    return Success(ActorCreated(id.value));
  }

  // ------------------------------------------------------------ add_movie

  /** A missing title or date, or no actor id at all. */
  predicate MissingMovieField(body: Option<MovieRequest>) {
    body.None? || body.value.title.None? || body.value.dateRelease.None? || body.value.actorsId == []
  }

  /** `Movie(title=..., date_release=strptime(...).date(), ...)`, or None when `strptime` raises. */
  function NewMovie(req: MovieRequest): (r: Option<MovieRow>)
    requires req.title.Some? && req.dateRelease.Some?
    ensures r.Some? ==>
              && r.value.title == req.title.value && ValidDate(r.value.release)
              && FormatDate(r.value.release) == req.dateRelease.value
    ensures (exists d :: ValidDate(d) && FormatDate(d) == req.dateRelease.value) ==> r.Some?
  {
    match ParseDate(req.dateRelease.value)
    case None =>
      assert forall d :: ValidDate(d) ==> ParseDate(FormatDate(d)) == Some(d) by {
        forall d | ValidDate(d) ensures ParseDate(FormatDate(d)) == Some(d) {
          FormatThenParse(d);
        }
      }
      None
    case Some(d) =>
      ParseThenFormat(req.dateRelease.value);
      Some(MovieRow(req.title.value, d))
  }

  /**
   * The reply of `add_movie`, given the keys of the actors present and the key
   * the next movie gets.
   */
  function AddMovieResponse(actorKeys: set<int>, nextId: int, body: Option<MovieRequest>): (r: Response)
    ensures r.BadRequest? <==> MissingMovieField(body)
    ensures r.NotFound? <==>
              !MissingMovieField(body) && exists a :: a in body.value.actorsId && a !in actorKeys
    ensures r.Unprocessable? <==>
              && !MissingMovieField(body)
              && (forall a :: a in body.value.actorsId ==> a in actorKeys)
              && (NewMovie(body.value).None? || !MovieStorable(NewMovie(body.value).value))
    ensures r.Success? ==> r.body == MovieCreated(nextId)
  {
    if MissingMovieField(body) then
      BadRequest
    else
      var req := body.value;
      var actors := CheckExist(actorKeys, Distinct(req.actorsId));
      if actors.None? || actors.value == {} then
        NotFound
      else
        match NewMovie(req)
        case None => Unprocessable
        case Some(row) => if MovieStorable(row) then Success(MovieCreated(nextId)) else Unprocessable
  }

  /** Two bodies that differ only in repeated actor ids get the same reply. */
  lemma AddMovieIgnoresDuplicates(actorKeys: set<int>, nextId: int, req1: MovieRequest, req2: MovieRequest)
    requires req1.(actorsId := req2.actorsId) == req2
    requires forall a :: a in req1.actorsId <==> a in req2.actorsId
    ensures AddMovieResponse(actorKeys, nextId, Some(req1)) == AddMovieResponse(actorKeys, nextId, Some(req2))
  {
    CheckIgnoresDuplicates(actorKeys, req1.actorsId, req2.actorsId);
  }

  /** POST /movies */
  method AddMovie(db: Store, body: Option<MovieRequest>) returns (resp: Response)
    requires db.Valid()
    modifies db
    ensures db.Valid()
    ensures resp == AddMovieResponse(old(db.actors.Keys), old(db.nextMovieId), body)
    ensures resp.Success? ==>
              && db.movies == old(db.movies)[old(db.nextMovieId) := StoredMovie(NewMovie(body.value).value)]
              && db.links == old(db.links) + LinksOfMovie(old(db.nextMovieId), Distinct(body.value.actorsId))
              && db.actors == old(db.actors)
              && db.nextMovieId == old(db.nextMovieId) + 1 && db.nextActorId == old(db.nextActorId)
    ensures resp.Success? ==>
              forall a :: Link(resp.body.movieId, a) in db.links <==> a in body.value.actorsId
    ensures !resp.Success? ==> unchanged(db)
  {
    if body.None? {
      return BadRequest;
    }
    var req := body.value;
    var actorIds := Distinct(req.actorsId);
    if req.title.None? || req.dateRelease.None? || actorIds == [] {
      return BadRequest;
    }
    var actors := CheckActorsExist(db, actorIds);
    if actors.None? || actors.value == {} {
      return NotFound;
    }
    var row := NewMovie(req);
    if row.None? {
      return Unprocessable;
    }
    var id := db.InsertMovie(row.value, actorIds);
    if id.None? {
      return Unprocessable;
    }
    forall l | l in old(db.links) ensures l.movie != id.value {
      assert l.movie in old(db.movies);
    }
    return Success(MovieCreated(id.value));
  }

  // --------------------------------------------------------------- delete

  /** DELETE /actors/<id> */
  method DeleteActor(db: Store, actorId: nat) returns (resp: Response)
    requires db.Valid()
    modifies db
    ensures db.Valid()
    ensures resp.Success? <==> actorId in old(db.actors)
    ensures resp.Success? ==>
              && resp.body == ActorDeleted(actorId)
              && db.actors == old(db.actors) - {actorId}
              && db.links == WithoutActor(old(db.links), actorId)
              && db.movies == Sweep(old(db.movies), db.links)
              && db.nextActorId == old(db.nextActorId) && db.nextMovieId == old(db.nextMovieId)
    ensures !resp.Success? ==> resp == NotFound && unchanged(db)
  {
    if actorId in db.actors {
      db.DeleteActor(actorId);
      resp := Success(ActorDeleted(actorId));
    } else {
      resp := NotFound;
    }
  }

  /** DELETE /movies/<id> */
  method DeleteMovie(db: Store, movieId: nat) returns (resp: Response)
    requires db.Valid()
    modifies db
    ensures db.Valid()
    ensures resp.Success? <==> movieId in old(db.movies)
    ensures resp.Success? ==>
              && resp.body == MovieDeleted(movieId)
              && db.movies == old(db.movies) - {movieId}
              && db.links == WithoutMovie(old(db.links), movieId)
              && db.actors == old(db.actors)
              && db.nextActorId == old(db.nextActorId) && db.nextMovieId == old(db.nextMovieId)
    ensures !resp.Success? ==> resp == NotFound && unchanged(db)
  {
    if movieId in db.movies {
      db.DeleteMovie(movieId);
      resp := Success(MovieDeleted(movieId));
    } else {
      resp := NotFound;
    }
  }

  // ------------------------------------------------------------------ get

  /** GET /actors: every actor formatted, each once, in key order. */
  method ListActors(db: Store) returns (resp: Response)
    requires db.Valid()
    ensures resp.Success? && resp.body.ActorList?
    ensures resp.body.totalActors == |resp.body.actors|
    ensures forall v :: v in resp.body.actors ==> v.id in db.actors && v == db.FormatActor(v.id)
    ensures forall a :: a in db.actors ==> db.FormatActor(a) in resp.body.actors
    ensures forall i, j :: 0 <= i < j < |resp.body.actors| ==> resp.body.actors[i].id < resp.body.actors[j].id
  {
    var views: seq<ActorView> := [];
    var id := 1;
    while id < db.nextActorId
      invariant 1 <= id <= db.nextActorId
      invariant forall v :: v in views ==> v.id in db.actors && v.id < id && v == db.FormatActor(v.id)
      invariant forall a :: a in db.actors && a < id ==> db.FormatActor(a) in views
      invariant forall i, j :: 0 <= i < j < |views| ==> views[i].id < views[j].id
    {
      if id in db.actors {
        views := views + [db.FormatActor(id)];
      }
      id := id + 1;
    }
    resp := Success(ActorList(views, |views|));
  }

  /** GET /movies: every movie formatted, each once, in key order. */
  method ListMovies(db: Store) returns (resp: Response)
    requires db.MoviesKeyed()
    ensures resp.Success? && resp.body.MovieList?
    ensures resp.body.totalMovies == |resp.body.movies|
    ensures forall v :: v in resp.body.movies ==> v.id in db.movies && v == db.FormatMovie(v.id)
    ensures forall m :: m in db.movies ==> db.FormatMovie(m) in resp.body.movies
    ensures forall i, j :: 0 <= i < j < |resp.body.movies| ==> resp.body.movies[i].id < resp.body.movies[j].id
  {
    var views: seq<MovieView> := [];
    var id := 1;
    while id < db.nextMovieId
      invariant 1 <= id <= db.nextMovieId
      invariant forall v :: v in views ==> v.id in db.movies && v.id < id && v == db.FormatMovie(v.id)
      invariant forall m :: m in db.movies && m < id ==> db.FormatMovie(m) in views
      invariant forall i, j :: 0 <= i < j < |views| ==> views[i].id < views[j].id
    {
      if id in db.movies {
        views := views + [db.FormatMovie(id)];
      }
      id := id + 1;
    }
    resp := Success(MovieList(views, |views|));
  }
}

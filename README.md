# Actor/movie store: relational integrity, in Dafny

This project models the core of a small casting service. It keeps actors
(name, age, gender) and movies (title, release date), linked many-to-many
through an association table. It covers the HTTP handlers that list, add and
delete them, and the entity layer underneath:

- `insert`, `delete`, `get_actors`, `get_movies` and `format`;
- the hook that runs after every flush and deletes each movie left without
  actors.

The model is organised as follows.

- `wrappers.dfy`: `Option`, used for absent JSON fields and failed lookups.
- `dates.dfy`: the `'%Y%m%d'` text form of a release date. A strict parser
  (`ParseDate`, standing for `strptime`) and a formatter (`FormatDate`, for
  `strftime`) are proved to be inverses on the dates a `datetime.date` can
  hold.
- `models.dfy`: the tables, stored as values. The association table is a
  sequence of `Link(movie, actor)` rows, and `ActorsOf` / `MoviesOf` read the
  relationship and its backref from it. `Sweep` is the orphan sweep. The
  `Store` class is the database as the session sees it: two maps, the row
  sequence and one primary-key counter per table. Its `Valid()` invariant
  says six things:
  - every row names a live actor and a live movie;
  - no row appears twice;
  - no movie is without actors;
  - every key is below its counter;
  - every stored row fits its columns;
  - every release date is a calendar date (`MoviesKeyed`, which holds the
    movie half of the key bound too).

  Every insert and delete keeps that invariant. Each one ends with the flush's
  sweep (`AfterFlush`).
- `app.dfy`: the handlers, each a module-level method taking the `Store` as
  `db`. The replies of
  `add_actor` and `add_movie` are also given as functions of the state before
  the request (`AddActorResponse`, `AddMovieResponse`). Lemmas about those
  functions show that duplicate ids never change the outcome. The shared
  existence check `CheckExist` succeeds exactly when the ids are distinct and
  all present.

Every request ends in one of four ways. `Success` (200) carries a body.
`BadRequest` (400), `NotFound` (404) and `Unprocessable` (422) each have their
own fixed message. A request that does not succeed leaves the store unchanged.

The code does not fix the database engine: the URI comes from the environment
(app.py:12, test_app.py:17). The model assumes PostgreSQL (see "## Left out").
A storage failure inside the handlers' `try` blocks is modelled by the column
types declared in `models.py` (models.py:31, models.py:70-71), assigned as
PostgreSQL assigns to `varchar(255)` and `integer`. An age outside the signed
32-bit range makes the insert fail. A name or title over 255 characters makes
it fail too, unless every character past the 255th is a space: then the value
is cut to 255 characters and stored (`FitString`, `StoredActor`,
`StoredMovie`).

## Behaviour of the code worth knowing

The model follows the code.

- `add_actor` with an empty or absent `movies_id` answers 404. The check runs
  the query with an empty list and gets 0 rows for 0 ids. It then returns an
  empty list, and `if movies:` treats that as a failure (app.py:130-141). The
  tests at test_app.py:113-126 and test_app.py:340-354 post an actor without
  `movies_id` and expect 200, so they would fail against this code.
  `AddActorResponse` states the 404.
- An empty id list is not a short-circuit: the existence check always runs the
  query and compares counts (app.py:104-112, app.py:148-154).
- The sweep runs after every flush, inserts included (models.py:105-110). So
  `Movie.insert` with no actors leaves no movie behind (`Store.InsertMovie`).
  The handler never reaches that case, because it answers 400 for an empty
  `actors_id`.
- `app.py` contains no authorization check and no update route.

## Model

| member | source | states |
|---|---|---|
| `Dates.ParseDate` | app.py:174 | a string parses only if it is eight digits naming a valid Gregorian date in years 1 to 9999 |
| `Dates.FormatDate` | models.py:62 | the rendering of a valid date is eight digits |
| `Dates.FormatThenParse` | models.py:62 | parsing a formatted date gives that date back |
| `Dates.ParseThenFormat` | app.py:174 | a string that parses is exactly the rendering of the date it names |
| `Models.GenderOf` | models.py:18-20 | `Gender(code)` succeeds exactly for 'M' and 'F' (absent is refused), and the gender's value is the code |
| `Models.GenderValue` | models.py:101 | `gender.value` is the one-letter code: 'M' exactly for male, otherwise 'F' |
| `Models.GenderRoundTrip` | models.py:101 | reading back `gender.value` gives the same gender |
| `Models.LinksOfActor` | app.py:136 | setting a new actor's movies adds one row per movie id, all naming that actor, with no duplicate when the ids are distinct |
| `Models.LinksOfMovie` | app.py:176 | building a movie with actors adds one row per actor id, all naming that movie, with no duplicate when the ids are distinct |
| `Models.ActorsOf` | models.py:33 | `m.actors` contains `a` exactly when a row links `m` and `a` |
| `Models.MoviesOf` | models.py:34 | the backref `a.movies` contains `m` exactly when a row links `m` and `a` |
| `Models.ActorsOfCount` | models.py:52-56 | `get_actors` lists an actor once per row linking it to the movie |
| `Models.MoviesOfCount` | models.py:90-94 | `get_movies` lists a movie once per row linking it to the actor |
| `Models.CastSymmetric` | models.py:33-34 | `a` occurs in `m.actors` exactly as often as `m` occurs in `a.movies` |
| `Models.ActorsOfNoDup` | models.py:22-25 | with no duplicate association rows, a movie lists each of its actors once |
| `Models.WithoutActor` | models.py:86-88 | deleting an actor removes exactly the rows naming it and keeps rows distinct |
| `Models.WithoutMovie` | models.py:48-50 | deleting a movie removes exactly the rows naming it and keeps rows distinct |
| `Models.HasActorIsCastNonEmpty` | models.py:109 | `Movie.actors.any()` holds exactly when `m.actors` is non-empty |
| `Models.HasActorJoin` | models.py:109 | while every row names a live actor, `Movie.actors.any()` holds exactly when some stored actor is linked to the movie |
| `Models.FitString` | models.py:31 | a value fits a `String(255)` column exactly when every character past the 255th is a space; a longer value is then stored as exactly its first 255 characters, only spaces being cut; a value of at most 255 characters is stored as it is |
| `Models.StoredActor` | models.py:70-71 | the stored actor row keeps age and gender; its name is the whole name when it fits, otherwise exactly its first 255 characters, and every character cut is a space |
| `Models.StoredMovie` | models.py:31-32 | the stored movie row keeps the release date; its title is the whole title when it fits, otherwise exactly its first 255 characters, and every character cut is a space |
| `Models.SweepNewMovie` | models.py:41-43 | a movie inserted with actors survives the flush's sweep and one inserted without is removed; every movie already present survives |
| `Models.Sweep` | models.py:105-110 | after the sweep no movie lacks actors; it deletes only movies without actors and keeps every other movie unchanged |
| `Models.SweepNoOrphans` | models.py:108-110 | with no orphan present the sweep changes nothing |
| `Models.SweepIdempotent` | models.py:108-110 | sweeping twice is the same as sweeping once |
| `Models.DeleteActorSweep` | models.py:86-88 | after deleting actor `a`, a movie survives the sweep exactly when it has another actor, and a surviving movie keeps all its other actors |
| `Models.Store.AfterFlush` | models.py:105-110 | the hook replaces the movie table by its sweep and touches nothing else |
| `Models.Store.InsertActor` | models.py:79-81 | insert fails, changing nothing, exactly when the row does not fit its columns; otherwise the stored row is added under a fresh key, linked to exactly the given movies, and no movie changes |
| `Models.Store.InsertMovie` | models.py:41-43 | insert fails, changing nothing, exactly when the title does not fit; otherwise the stored row is added under a fresh key with one row per given actor, and the flush's sweep removes it again when no actor was given |
| `Models.Store.DeleteActor` | models.py:86-88 | the actor and its rows go, then the sweep removes the movies left without actors; the invariant holds |
| `Models.Store.DeleteMovie` | models.py:48-50 | the movie and its rows go; no actor and no other movie changes |
| `Models.Store.GetActors` | models.py:52-56 | the loop returns the actor id of each row naming the movie, in row order |
| `Models.Store.GetMovies` | models.py:90-94 | the loop returns the movie id of each row naming the actor, in row order |
| `Models.Store.FormatActor` | models.py:96-103 | the dictionary carries the actor's key, name and age, the gender code that reads back as its gender, and exactly its linked movies |
| `Models.Store.FormatMovie` | models.py:58-64 | the dictionary carries the movie's key, title, the `%Y%m%d` rendering of its date, and exactly its linked actors |
| `App.Response.Status` | app.py:188-210 | every outcome has its own status: 200 success, 400 bad request, 404 not found, 422 unprocessable |
| `App.Response.Message` | app.py:188-210 | each error outcome carries its own message: "bad request", "resource not found", "unprocessable" |
| `App.MessagesDistinct` | app.py:193-209 | the three error replies carry three different messages |
| `App.Distinct` | app.py:124 | `list(set(ids))` has no duplicate and the same elements as `ids` |
| `App.CheckExist` | app.py:106-112 | the count comparison succeeds exactly when the ids are distinct and all present, and then yields exactly the requested ids |
| `App.CheckIgnoresDuplicates` | app.py:165 | after de-duplication the check depends only on the set of ids and succeeds exactly when all exist |
| `App.CheckMoviesExist` | app.py:104-112 | `check_movies_exist` returns the movies exactly when the ids are distinct and all name movies, else None |
| `App.CheckActorsExist` | app.py:148-154 | `check_actors_exist` returns the actors exactly when the ids are distinct and all name actors, else None |
| `App.NewActor` | app.py:135 | building the actor succeeds exactly when the gender is 'M' or 'F'; it keeps name and age, and its gender's value is the code sent |
| `App.AddActorResponse` | app.py:114-146 | 400 exactly when the body, name or age is missing; else 404 exactly when `movies_id` is empty or names a missing movie; else 422 exactly when the gender is not 'M'/'F' or the row does not fit; else 200 with the next actor key |
| `App.AddActorIgnoresDuplicates` | app.py:124 | repeating movie ids in the body does not change the reply |
| `App.AddActor` | app.py:114-146 | the reply is `AddActorResponse` of the old state; on success one actor is added under the next key (its name cut as the column stores it), linked to exactly the requested movies, the actor counter moves on by one, and no movie and the movie counter do not change; otherwise nothing changes |
| `App.NewMovie` | app.py:174-176 | building the movie succeeds exactly when the date string is the `%Y%m%d` rendering of a calendar date, and then keeps the title and holds a date whose rendering is the string sent |
| `App.AddMovieResponse` | app.py:156-186 | 400 exactly when the body, title or date is missing or `actors_id` is empty; else 404 exactly when an actor id is missing; else 422 exactly when the date does not parse or the title does not fit; else 200 with the next movie key |
| `App.AddMovieIgnoresDuplicates` | app.py:165 | repeating actor ids in the body does not change the reply |
| `App.AddMovie` | app.py:156-186 | the reply is `AddMovieResponse` of the old state; on success one movie is added under the next key (its title cut as the column stores it) whose actors are exactly the requested ids, the movie counter moves on by one, and no actor and the actor counter do not change; otherwise nothing changes |
| `App.DeleteActor` | app.py:52-76 | 404 with no change for an unknown id; otherwise the actor and its rows are gone, the orphaned movies are swept, both key counters stay, and the id is echoed |
| `App.DeleteMovie` | app.py:78-102 | 404 with no change for an unknown id; otherwise the movie and its rows are gone, every actor and both key counters stay, and the id is echoed |
| `App.ListActors` | app.py:20-34 | the reply lists every actor's formatted dictionary exactly once, nothing else, in key order, and `total_actors` is the length of that list |
| `App.ListMovies` | app.py:36-50 | the reply lists every movie's formatted dictionary exactly once, nothing else, in key order, and `total_movies` is the length of that list |

## Left out

- Authorization: no token verification or permission check exists in `app.py`
  or `models.py`, so the 401 and "Action forbidden." cases are not modelled.
- Update: the PATCH routes are absent from `app.py`. The `update` methods
  (models.py:45-46, models.py:83-84) only commit and no handler calls them.
- Flask and SQLAlchemy plumbing is not modelled. That covers routing,
  `request.get_json`, `jsonify`, CORS, `setup_db`, `APP.run`, session
  identity, `synchronize_session=False` and the translation of `in_`.
- The `except: abort(422)` branches around queries and deletes
  (app.py:23-29, app.py:39-45, app.py:55-59, app.py:63-67, app.py:81-85,
  app.py:89-93) are not modelled. They catch storage failures that the model's
  store never raises.
- Storage engine: the engine is chosen at run time from the database URI
  (app.py:12), and the model assumes PostgreSQL. On another engine the
  outcomes of these members differ:
  - `Models.FitString`, `Models.StoredActor` and `Models.StoredMovie` use
    PostgreSQL's `varchar(255)` rule. SQLite, for one, stores a longer
    string whole.
  - `Models.ActorStorable` refuses an age outside the signed 32-bit range,
    which SQLite stores.
  - `Models.Store.InsertActor`, `Models.Store.InsertMovie`,
    `App.AddActorResponse` and `App.AddMovieResponse` take the key from a
    counter that never hands out a deleted key again, as a PostgreSQL
    sequence does. SQLite can reuse the key of a deleted highest row.

  So on SQLite a 300-character name or an age of 2^40 gets 200 where the
  model answers 422.
- Storage failures on insert are only the column-width violations described
  above. Lost connections and other engine errors are not modelled.
- Models.Store.InsertActor and Models.Store.InsertMovie: a failed insert leaves the key counter unchanged.
  A real sequence may consume a value on a failed INSERT, so later keys could
  skip a number.
- JSON values of the wrong type are left out: the request types hold only
  integer ages, string names, titles, genders and dates, and integer id lists.
  In the code, a non-string `gender` fails in `Gender(...)` (app.py:135) and a
  non-string `date_release` makes `strptime` raise (app.py:174); both end in
  422 inside the `try`, the same reply the model gives an unknown gender code
  or an unparsable date string. Other wrong types (a string age such as '30',
  a non-string name, non-integer ids, a null or unhashable id list) end in
  engine casts or uncaught server errors (app.py:124, app.py:165).
- Dates.ParseDate: accepts only the strict form of eight ASCII digits.
  `strptime` with `'%Y%m%d'` also accepts one-digit month and day fields, a
  space before a one-digit day ("202003 5" is 5 March 2020), and any Unicode
  decimal digit where an ASCII digit is expected. The model answers 422 where
  the code would store such a date.
- Dates.FormatDate: always pads the year to four digits. `strftime` may leave
  years below 1000 unpadded, depending on the platform.
- Order is modelled only partly. `m.actors`, `a.movies` and `query.all()`
  come back in an order the database chooses. The model reads the
  relationship in association-row order and lists entities in key order.
  Only membership and multiplicity are claimed.
- Models.ActorRow: the actor's gender is always present. `add_actor` never
  stores a null gender (`Gender(None)` raises), but a direct `Actor(...)` with
  `gender=None` could store one.
- Concurrency is not modelled: the code has none. The gap between the
  existence check and the commit is therefore not modelled either.
- A session left unusable after a failed commit (no rollback in the handlers)
  is not modelled. Each request starts from a consistent store.
- The `print` calls, the migration script and the test file are not modelled.

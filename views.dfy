/**
  The handlers of app/views.py that change the database: register, login,
  logout, create/update/delete a movie, and rate a movie, together with the
  single-movie lookup.  The database is a `Store` holding the three tables
  as sequences of rows; the logged-in user is passed in as `caller`, and
  each handler returns its HTTP status and message.
 */
module Views {
  import opened Wrappers
  import opened Utils
  import opened Models

  /** A handler's HTTP status and the `message` or `error` text of its JSON body. */
  datatype Response = Response(status: int, message: string)

  const InvalidJson := Response(400, "Invalid JSON")
  const MissingFields := Response(400, "Missing required fields")
  const UsernameTaken := Response(400, "Username already taken")
  const AccountCreated := Response(201, "Account created successfully!")
  /** The email column is unique: a second account with a known email fails at commit. */
  const IntegrityError := Response(500, "Internal Server Error")
  const NotJsonRequest := Response(200, "Invalid request")
  const LoginOk := Response(200, "Login successful!")
  const BadCredentials := Response(401, "Invalid username or password")
  const LogoutOk := Response(200, "Logout successful!")
  const MovieFieldsRequired := Response(400, "Title, release date, and average rating are required")
  const BadDateFormat := Response(400, "Invalid release date format. Use YYYY-MM-DD")
  const RatingOutOfRange := Response(400, "Average rating must be between 1 and 10")
  const FutureRelease := Response(400, "Release date cannot be in the future")
  const MovieCreated := Response(200, "Movie created successfully")
  const MovieNotFound := Response(404, "Movie not found")
  const NotCreator := Response(200, "You are not the creator of this movie")
  const MovieUpdated := Response(200, "Movie updated successfully")
  const MovieDeleted := Response(200, "Movie deleted successfully")
  const ScoreOutOfRange := Response(404, "Rating should be in the range of 1 to 10")
  const RatingSubmitted := Response(200, "Rating submitted successfully")

  /** A request body for `/login`, which also answers requests that are not JSON. */
  datatype Body = NotJson | Json(fields: map<string, string>)

  /** `data.get(key)` is truthy: present and non-empty. */
  predicate Present(data: map<string, string>, key: string) {
    key in data && data[key] != ""
  }

  // ---------------------------------------------------------------------
  // Table lookups
  // ---------------------------------------------------------------------

  /**
    The first-match search behind `.first()` and `.get(id)`: the index of the
    first row satisfying `p`, or None when no row does.
   */
  function FindFirst<T>(s: seq<T>, p: T -> bool): (r: Option<nat>)
    ensures r.Some? ==> r.value < |s| && p(s[r.value])
    ensures r.Some? ==> forall j :: 0 <= j < r.value ==> !p(s[j])
    ensures r.None? ==> forall j :: 0 <= j < |s| ==> !p(s[j])
  {
    if s == [] then None
    else if p(s[0]) then Some(0)
    else
      var r := FindFirst(s[1..], p);
      if r.Some? then Some(r.value + 1) else None
  }

  /** `User.query.filter_by(username=...).first()`: the first row with that name. */
  function FindUser(users: seq<User>, username: string): (r: Option<nat>)
    ensures r.Some? ==> r.value < |users| && users[r.value].username == username
    ensures r.Some? ==> forall j :: 0 <= j < r.value ==> users[j].username != username
    ensures r.None? ==> forall j :: 0 <= j < |users| ==> users[j].username != username
  {
    FindFirst(users, (u: User) => u.username == username)
  }

  /** `Movie.query.get(id)`: the row with that primary key. */
  function FindMovie(movies: seq<Movie>, id: int): (r: Option<nat>)
    ensures r.Some? ==> r.value < |movies| && movies[r.value].id == id
    ensures r.None? ==> forall j :: 0 <= j < |movies| ==> movies[j].id != id
  {
    FindFirst(movies, (m: Movie) => m.id == id)
  }

  predicate RatesPair(r: Rating, userId: int, movieId: int) {
    r.userId == userId && r.movieId == movieId
  }

  /** `Rating.query.filter_by(user_id=..., movie_id=...).first()`. */
  function FindRating(ratings: seq<Rating>, userId: int, movieId: int): (r: Option<nat>)
    ensures r.Some? ==> r.value < |ratings| && RatesPair(ratings[r.value], userId, movieId)
    ensures r.Some? ==> forall j :: 0 <= j < r.value ==> !RatesPair(ratings[j], userId, movieId)
    ensures r.None? ==> forall j :: 0 <= j < |ratings| ==> !RatesPair(ratings[j], userId, movieId)
  {
    FindFirst(ratings, (x: Rating) => RatesPair(x, userId, movieId))
  }

  // ---------------------------------------------------------------------
  // Table invariants
  // ---------------------------------------------------------------------

  /** Ids are assigned 1, 2, 3, ... and users are never deleted. */
  predicate UserIdsArePositions(users: seq<User>) {
    forall i :: 0 <= i < |users| ==> users[i].id == i + 1
  }

  /** The unique constraints on `username` and `email`. */
  predicate UniqueAccounts(users: seq<User>) {
    forall i, j :: 0 <= i < j < |users| ==>
      users[i].username != users[j].username && users[i].email != users[j].email
  }

  predicate DistinctMovieIds(movies: seq<Movie>) {
    forall i, j :: 0 <= i < j < |movies| ==> movies[i].id != movies[j].id
  }

  /** At most one rating per (user, movie) pair. */
  predicate OneRatingPerPair(ratings: seq<Rating>) {
    forall i, j :: 0 <= i < j < |ratings| ==>
      !RatesPair(ratings[j], ratings[i].userId, ratings[i].movieId)
  }

  /** Replacing a row by one with the same id keeps the ids distinct. */
  lemma ReplaceKeepsDistinctIds(movies: seq<Movie>, i: nat, m: Movie)
    requires DistinctMovieIds(movies) && i < |movies| && m.id == movies[i].id
    ensures DistinctMovieIds(movies[i := m])
    ensures forall j :: 0 <= j < |movies| ==> movies[i := m][j].id == movies[j].id
  {
  }

  /** Removing a row keeps the ids distinct and every other row, in order. */
  lemma RemoveKeepsOthers(movies: seq<Movie>, i: nat)
    requires DistinctMovieIds(movies) && i < |movies|
    ensures DistinctMovieIds(movies[..i] + movies[i + 1..])
    ensures forall m :: m in movies[..i] + movies[i + 1..] ==> m in movies && m.id != movies[i].id
    ensures forall m :: m in movies && m.id != movies[i].id ==> m in movies[..i] + movies[i + 1..]
  {
    var rest := movies[..i] + movies[i + 1..];
    assert forall j :: 0 <= j < |rest| ==> rest[j] == movies[if j < i then j else j + 1];
    forall m | m in movies && m.id != movies[i].id ensures m in rest {
      var j :| 0 <= j < |movies| && movies[j] == m;
      if j < i { assert rest[j] == m; } else { assert rest[j - 1] == m; }
    }
  }

  // ---------------------------------------------------------------------
  // The rating upsert
  // ---------------------------------------------------------------------

  /**
    The rating table after `rate`: the first rating of the pair gets the new
    score, or a new rating is appended when the pair has none.  Every other
    row keeps its place and value.
   */
  function Upsert(ratings: seq<Rating>, userId: int, movieId: int, score: int): (r: seq<Rating>)
    ensures FindRating(ratings, userId, movieId).Some? ==>
              |r| == |ratings| && r[FindRating(ratings, userId, movieId).value] == Rating(userId, movieId, score)
    ensures FindRating(ratings, userId, movieId).None? ==>
              |r| == |ratings| + 1 && r[|ratings|] == Rating(userId, movieId, score)
    ensures forall i :: 0 <= i < |ratings| && FindRating(ratings, userId, movieId) != Some(i) ==> r[i] == ratings[i]
  {
    var existing := FindRating(ratings, userId, movieId);
    if existing.Some? then ratings[existing.value := ratings[existing.value].(rating := score)]
    else ratings + [Rating(userId, movieId, score)]
  }

  /**
    With at most one rating per pair before, the same holds after, and the
    pair's one rating carries the new score.
   */
  lemma UpsertKeepsOneRatingPerPair(ratings: seq<Rating>, userId: int, movieId: int, score: int)
    requires OneRatingPerPair(ratings)
    ensures OneRatingPerPair(Upsert(ratings, userId, movieId, score))
    ensures Rating(userId, movieId, score) in Upsert(ratings, userId, movieId, score)
    ensures forall x :: x in Upsert(ratings, userId, movieId, score) && RatesPair(x, userId, movieId) ==>
              x.rating == score
  {
    var r := Upsert(ratings, userId, movieId, score);
    var existing := FindRating(ratings, userId, movieId);
    var k := if existing.Some? then existing.value else |ratings|;
    assert r[k] == Rating(userId, movieId, score);
    forall i | 0 <= i < |r| && i != k ensures !RatesPair(r[i], userId, movieId) && r[i] == ratings[i] {
    }
  }

  /** Rating a movie 7 and then 9 leaves one rating of that pair, and it is 9. */
  lemma RateTwiceKeepsLatest(ratings: seq<Rating>, userId: int, movieId: int)
    requires OneRatingPerPair(ratings)
    ensures var r := Upsert(Upsert(ratings, userId, movieId, 7), userId, movieId, 9);
            OneRatingPerPair(r) && Rating(userId, movieId, 9) in r
            && forall x :: x in r && RatesPair(x, userId, movieId) ==> x.rating == 9
  {
    UpsertKeepsOneRatingPerPair(ratings, userId, movieId, 7);
    UpsertKeepsOneRatingPerPair(Upsert(ratings, userId, movieId, 7), userId, movieId, 9);
  }

  // ---------------------------------------------------------------------
  // Movie edits and creation
  // ---------------------------------------------------------------------

  /** The attributes `update_movie` reads from the request; all others are ignored. */
  const Editable: set<Attr> := {Title, Description, ReleaseDate, Director, Genre, TicketPrice, Cast}

  /**
    The seven assignments of `update_movie`: each editable attribute takes the
    supplied value, or keeps its own.  The id, creator and stored average
    rating never change, whatever the body holds.
   */
  function Edited(m: Movie, data: map<Attr, Value>): (r: Movie)
    requires forall a :: a in data && a in Editable ==> Fits(a, data[a])
    ensures forall a :: Get(r, a) == if a in Editable && a in data then data[a] else Get(m, a)
  {
    var r := EditAssignments(m, data);
    assert forall a :: Get(r, a) == if a in Editable && a in data then data[a] else Get(m, a) by {
      forall a ensures Get(r, a) == if a in Editable && a in data then data[a] else Get(m, a) {
        EditAssignmentsAt(m, data, a);
      }
    }
    r
  }

  /** `movie.title = data.get('title', movie.title)` and the six like it. */
  function EditAssignments(m: Movie, data: map<Attr, Value>): Movie
    requires forall a :: a in data && a in Editable ==> Fits(a, data[a])
  {
    assert forall a :: a in data && a in {Title, Description, ReleaseDate, Director, Genre, TicketPrice, Cast} ==>
      Fits(a, data[a]);
    m.(title := if Title in data then data[Title].s else m.title,
       description := if Description in data then TextOf(data[Description]) else m.description,
       releaseDate := if ReleaseDate in data then DayOf(data[ReleaseDate]) else m.releaseDate,
       director := if Director in data then TextOf(data[Director]) else m.director,
       genre := if Genre in data then TextOf(data[Genre]) else m.genre,
       ticketPrice := if TicketPrice in data then DecimalOf(data[TicketPrice]) else m.ticketPrice,
       cast := if Cast in data then TextOf(data[Cast]) else m.cast)
  }

  lemma EditAssignmentsAt(m: Movie, data: map<Attr, Value>, a: Attr)
    requires forall a :: a in data && a in Editable ==> Fits(a, data[a])
    ensures Get(EditAssignments(m, data), a) == if a in Editable && a in data then data[a] else Get(m, a)
  {
    match a
    case Id =>
    case Title =>
    case Description =>
    case ReleaseDate =>
    case Director =>
    case Genre =>
    case AverageRating =>
    case TicketPrice =>
    case Cast =>
    case CreatorId =>
  }

  /** A nullable text value as stored: text, or NULL. */
  function TextOf(v: Value): (o: Option<string>)
    requires v.Text? || v.Null?
    ensures OptText(o) == v
  {
    if v.Text? then Some(v.s) else None
  }

  function DayOf(v: Value): (o: Option<CalendarDate>)
    requires v.Day? || v.Null?
    ensures (if o.Some? then Day(o.value) else Null) == v
  {
    if v.Day? then Some(v.d) else None
  }

  function DecimalOf(v: Value): (o: Option<real>)
    requires v.Decimal? || v.Null?
    ensures OptDecimal(o) == v
  {
    if v.Decimal? then Some(v.r) else None
  }

  /** The JSON body of `POST /movies`; a missing key is None. */
  datatype NewMovie = NewMovie(
    title: Option<string>,
    releaseDate: Option<string>,
    averageRating: Option<real>,
    description: Option<string>,
    director: Option<string>,
    genre: Option<string>,
    ticketPrice: Option<real>,
    cast: Option<string>)

  /** Python truthiness of the three required fields. */
  predicate HasRequiredFields(data: NewMovie) {
    && data.title.Some? && data.title.value != ""
    && data.releaseDate.Some? && data.releaseDate.value != ""
    && data.averageRating.Some? && data.averageRating.value != 0.0
  }

  // ---------------------------------------------------------------------
  // The database
  // ---------------------------------------------------------------------

  class Store {
    /** `hash_password`. */
    const hash: string -> string
    var users: seq<User>
    var movies: seq<Movie>
    var ratings: seq<Rating>
    /** The next value of the movie id sequence. */
    var nextMovieId: int

    ghost predicate Valid()
      reads this
    {
      && UserIdsArePositions(users)
      && UniqueAccounts(users)
      && DistinctMovieIds(movies)
      && (forall i :: 0 <= i < |movies| ==> movies[i].id < nextMovieId)
      && OneRatingPerPair(ratings)
    }

    constructor (hash: string -> string)
      ensures Valid() && this.hash == hash
      ensures users == [] && movies == [] && ratings == [] && nextMovieId == 1
    {
      this.hash := hash;
      users, movies, ratings := [], [], [];
      nextMovieId := 1;
    }

    /** `GET /movies/<id>`: the serialized movie, or None for a 404. */
    function GetMovie(movieId: int): (r: Option<SerializedMovie>)
      reads this
      ensures r.Some? <==> exists i :: 0 <= i < |movies| && movies[i].id == movieId
      ensures r.Some? ==> r.value.id == movieId
      ensures r.Some? ==> exists i :: 0 <= i < |movies| && movies[i].id == movieId && r.value == Serialize(movies[i])
      ensures DistinctMovieIds(movies) ==>
                forall i :: 0 <= i < |movies| && movies[i].id == movieId ==> r == Some(Serialize(movies[i]))
    {
      var i := FindMovie(movies, movieId);
      if i.Some? then Some(Serialize(movies[i.value])) else None
    }

    /**
      `POST /register`: an empty body, a missing field or a taken username is
      a 400 and adds no user; otherwise exactly one user is appended, storing
      the digest of the password and not yet authenticated.
     */
    method Register(data: map<string, string>) returns (resp: Response)
      requires Valid()
      modifies this`users
      ensures Valid()
      ensures |data| == 0 ==> resp == InvalidJson
      ensures |data| > 0 && !(Present(data, "username") && Present(data, "email") && Present(data, "password")) ==>
                resp == MissingFields
      ensures resp.status == 400 ==> users == old(users)
      ensures Present(data, "username") && FindUser(old(users), data["username"]).Some? ==> resp.status == 400
      ensures (Present(data, "username") && Present(data, "email") && Present(data, "password")
               && FindUser(old(users), data["username"]).Some?) ==> resp == UsernameTaken
      ensures (Present(data, "username") && Present(data, "email") && Present(data, "password")
               && FindUser(old(users), data["username"]).None?
               && exists i :: 0 <= i < |old(users)| && old(users)[i].email == data["email"]) ==> resp == IntegrityError
      ensures resp in {InvalidJson, MissingFields, UsernameTaken, IntegrityError, AccountCreated}
      ensures resp == AccountCreated <==>
                && Present(data, "username") && Present(data, "email") && Present(data, "password")
                && (forall u :: u in old(users) ==> u.username != data["username"] && u.email != data["email"])
      ensures resp == AccountCreated ==>
                users == old(users) + [NewUser(|old(users)| + 1, data["username"], data["email"], hash(data["password"]))]
      ensures resp != AccountCreated ==> users == old(users)
    {
      if |data| == 0 {
        return InvalidJson;
      }
      if !Present(data, "username") || !Present(data, "email") || !Present(data, "password") {
        return MissingFields;
      }
      var username, email, password := data["username"], data["email"], data["password"];
      if FindUser(users, username).Some? {
        return UsernameTaken;
      }
      if exists i :: 0 <= i < |users| && users[i].email == email {
        return IntegrityError;
      }
      users := users + [NewUser(|users| + 1, username, email, hash(password))];
      resp := AccountCreated;
    }

    /**
      `POST /login`: only a known username whose stored digest matches the
      password sets that user's flag; every other outcome changes no user.
     */
    method Login(body: Body) returns (resp: Response)
      requires Valid()
      modifies this`users
      ensures Valid()
      ensures body.NotJson? ==> resp == NotJsonRequest
      ensures body.Json? && |body.fields| == 0 ==> resp == InvalidJson
      ensures body.Json? && |body.fields| > 0 && !(Present(body.fields, "username") && Present(body.fields, "password")) ==>
                resp == MissingFields
      ensures resp == LoginOk <==>
                && body.Json? && Present(body.fields, "username") && Present(body.fields, "password")
                && exists i :: 0 <= i < |old(users)| && old(users)[i].username == body.fields["username"]
                                && CheckPasswordHash(hash, old(users)[i].password, body.fields["password"])
      ensures resp == LoginOk ==>
                var i := FindUser(old(users), body.fields["username"]).value;
                users == old(users)[i := old(users)[i].(authenticated := true)] && users[i].IsAuthenticated()
      ensures (body.Json? && |body.fields| > 0 && Present(body.fields, "username") && Present(body.fields, "password")
               && resp != LoginOk) ==> resp == BadCredentials
      ensures resp != LoginOk ==> users == old(users)
      ensures resp in {NotJsonRequest, InvalidJson, MissingFields, LoginOk, BadCredentials}
    {
      if body.NotJson? {
        return NotJsonRequest;
      }
      var data := body.fields;
      if |data| == 0 {
        return InvalidJson;
      }
      if !Present(data, "username") || !Present(data, "password") {
        return MissingFields;
      }
      var found := FindUser(users, data["username"]);
      if found.Some? && CheckPasswordHash(hash, users[found.value].password, data["password"]) {
        var i := found.value;
        users := users[i := users[i].(authenticated := true)];
        resp := LoginOk;
      } else {
        resp := BadCredentials;
      }
    }

    /** `POST /logout`: clears the caller's flag and changes nothing else. */
    method Logout(caller: int) returns (resp: Response)
      requires Valid()
      requires 1 <= caller <= |users|
      modifies this`users
      ensures Valid()
      ensures resp == LogoutOk
      ensures |users| == |old(users)| && users[caller - 1].id == caller && !users[caller - 1].IsAuthenticated()
      ensures users == old(users)[caller - 1 := old(users)[caller - 1].(authenticated := false)]
    {
      users := users[caller - 1 := users[caller - 1].(authenticated := false)];
      resp := LogoutOk;
    }

    /**
      `POST /movies`, in the order the checks are made: required fields,
      the date format, the rating range, then the release date against
      `today`.  On the two-digit YYYY-MM-DD texts this validator accepts, the
      string comparison of the source is chronological order, so such a
      movie is refused exactly when it is released after today, and created
      when every check passes.  A new movie gets the next id and the caller
      as its creator.
     */
    method CreateMovie(caller: int, data: NewMovie, today: CalendarDate) returns (resp: Response)
      requires Valid()
      modifies this`movies, this`nextMovieId
      ensures Valid()
      ensures !HasRequiredFields(data) ==> resp == MovieFieldsRequired
      ensures HasRequiredFields(data) && !IsValidDate(data.releaseDate.value) ==> resp == BadDateFormat
      ensures (HasRequiredFields(data) && IsValidDate(data.releaseDate.value)
               && !(1.0 <= data.averageRating.value <= 10.0)) ==> resp == RatingOutOfRange
      ensures HasRequiredFields(data) && IsValidDate(data.releaseDate.value) && 1.0 <= data.averageRating.value <= 10.0 ==>
                (resp == FutureRelease <==> DateBefore(today, ParseDate(data.releaseDate.value).value))
      ensures resp == MovieCreated <==>
                && HasRequiredFields(data) && IsValidDate(data.releaseDate.value)
                && 1.0 <= data.averageRating.value <= 10.0
                && !DateBefore(today, ParseDate(data.releaseDate.value).value)
      ensures resp in {MovieFieldsRequired, BadDateFormat, RatingOutOfRange, FutureRelease, MovieCreated}
      ensures resp != MovieCreated ==> movies == old(movies) && nextMovieId == old(nextMovieId)
      ensures resp == MovieCreated ==>
                && nextMovieId == old(nextMovieId) + 1
                && movies == old(movies) + [Movie(old(nextMovieId), data.title.value, data.description,
                                                  ParseDate(data.releaseDate.value), data.director, data.genre,
                                                  data.averageRating, data.ticketPrice, data.cast, Some(caller))]
    {
      if !HasRequiredFields(data) {
        return MovieFieldsRequired;
      }
      var releaseDate := data.releaseDate.value;
      if !IsValidDate(releaseDate) {
        return BadDateFormat;
      }
      var rating := data.averageRating.value;
      if !(1.0 <= rating <= 10.0) {
        return RatingOutOfRange;
      }
      var date := ParseDate(releaseDate).value;
      FormatParse(releaseDate);
      FormatOrder(today, date);
      if StrLess(Format(today), releaseDate) {
        return FutureRelease;
      }
      var movie := Movie(nextMovieId, data.title.value, data.description, Some(date), data.director,
                         data.genre, data.averageRating, data.ticketPrice, data.cast, Some(caller));
      movies := movies + [movie];
      nextMovieId := nextMovieId + 1;
      resp := MovieCreated;
    }

    /**
      `PUT /movies/<id>`: a missing movie is a 404 and a caller who is not
      its creator gets a message; neither changes anything.  The creator's
      update changes only that movie, and in it only the supplied editable
      attributes.
     */
    method UpdateMovie(caller: int, movieId: int, data: map<Attr, Value>) returns (resp: Response)
      requires Valid()
      requires forall a :: a in data && a in Editable ==> Fits(a, data[a])
      modifies this`movies
      ensures Valid()
      ensures FindMovie(old(movies), movieId).None? ==> resp == MovieNotFound
      ensures FindMovie(old(movies), movieId).Some? ==>
                var i := FindMovie(old(movies), movieId).value;
                if old(movies)[i].creatorId == Some(caller) then
                  resp == MovieUpdated && movies == old(movies)[i := Edited(old(movies)[i], data)]
                else resp == NotCreator
      ensures resp != MovieUpdated ==> movies == old(movies)
    {
      var found := FindMovie(movies, movieId);
      if found.None? {
        return MovieNotFound;
      }
      var i := found.value;
      if movies[i].creatorId != Some(caller) {
        return NotCreator;
      }
      var edited := Edited(movies[i], data);
      assert Get(edited, Id) == Get(movies[i], Id);
      ReplaceKeepsDistinctIds(movies, i, edited);
      movies := movies[i := edited];
      resp := MovieUpdated;
    }

    /**
      `DELETE /movies/<id>`: a missing movie is a 404 and a caller who is not
      its creator gets a message; neither changes anything.  The creator's
      delete removes exactly that movie and keeps every other one in order.
     */
    method DeleteMovie(caller: int, movieId: int) returns (resp: Response)
      requires Valid()
      modifies this`movies
      ensures Valid()
      ensures FindMovie(old(movies), movieId).None? ==> resp == MovieNotFound
      ensures FindMovie(old(movies), movieId).Some? ==>
                var i := FindMovie(old(movies), movieId).value;
                if old(movies)[i].creatorId == Some(caller) then
                  resp == MovieDeleted && movies == old(movies)[..i] + old(movies)[i + 1..]
                else resp == NotCreator
      ensures resp != MovieDeleted ==> movies == old(movies)
      ensures resp == MovieDeleted ==>
                (forall m :: m in movies ==> m.id != movieId)
                && (forall m :: m in old(movies) && m.id != movieId ==> m in movies)
    {
      var found := FindMovie(movies, movieId);
      if found.None? {
        return MovieNotFound;
      }
      var i := found.value;
      if movies[i].creatorId != Some(caller) {
        return NotCreator;
      }
      RemoveKeepsOthers(movies, i);
      movies := movies[..i] + movies[i + 1..];
      resp := MovieDeleted;
    }

    /**
      `POST /rate/<id>`: a score above 10 or below 0 is refused with a 404
      before the movie is looked up, and a missing movie is a 404; neither
      touches the ratings.  Otherwise the caller's rating of the movie is
      created or overwritten (never duplicated) and all other ratings stay.
     */
    method Rate(caller: int, movieId: int, score: int) returns (resp: Response)
      requires Valid()
      modifies this`ratings
      ensures Valid()
      ensures (score > 10 || score < 0) ==> resp == ScoreOutOfRange
      ensures 0 <= score <= 10 && FindMovie(movies, movieId).None? ==> resp == MovieNotFound
      ensures resp == RatingSubmitted <==> 0 <= score <= 10 && FindMovie(movies, movieId).Some?
      ensures resp != RatingSubmitted ==> ratings == old(ratings)
      ensures resp == RatingSubmitted ==>
                && ratings == Upsert(old(ratings), caller, movieId, score)
                && Rating(caller, movieId, score) in ratings
                && (forall x :: x in ratings && RatesPair(x, caller, movieId) ==> x.rating == score)
    {
      if score > 10 || score < 0 {
        return ScoreOutOfRange;
      }
      var found := FindMovie(movies, movieId);
      if found.None? {
        return MovieNotFound;
      }
      UpsertKeepsOneRatingPerPair(ratings, caller, movieId, score);
      var existing := FindRating(ratings, caller, movieId);
      if existing.Some? {
        ratings := ratings[existing.value := ratings[existing.value].(rating := score)];
      } else {
        ratings := ratings + [Rating(caller, movieId, score)];
      }
      resp := RatingSubmitted;
    }
  }
}

/**
  The record types of app/models.py: users, movies and the rating rows the
  handlers create, with `Movie.serialize`, `Movie.update` and the user flag
  accessors that the login framework calls.
 */
module Models {
  import opened Wrappers
  import opened Utils

  // ---------------------------------------------------------------------
  // User
  // ---------------------------------------------------------------------

  /** A row of the `user` table; `password` holds the digest, never the password. */
  datatype User = User(id: int, username: string, email: string, password: string, authenticated: bool)
  {
    /** All users are active. */
    predicate IsActive()
      ensures IsActive()
    {
      true
    }

    /** Whether the last login of this user has not been followed by a logout. */
    predicate IsAuthenticated()
      ensures IsAuthenticated() <==> authenticated
    {
      authenticated
    }

    /** Anonymous users are not supported. */
    predicate IsAnonymous()
      ensures !IsAnonymous()
    {
      false
    }
  }

  /** `User(username=..., email=..., password=...)`: the flag starts out false. */
  function NewUser(id: int, username: string, email: string, password: string): (u: User)
    ensures u.id == id && u.username == username && u.email == email && u.password == password
    ensures !u.IsAuthenticated() && u.IsActive() && !u.IsAnonymous()
  {
    User(id, username, email, password, false)
  }

  // ---------------------------------------------------------------------
  // Movie and its attributes
  // ---------------------------------------------------------------------

  /**
    A row of the `movie` table.  Nullable columns are options; the two float
    columns are reals (only compared and copied here, never computed on).
   */
  datatype Movie = Movie(
    id: int,
    title: string,
    description: Option<string>,
    releaseDate: Option<CalendarDate>,
    director: Option<string>,
    genre: Option<string>,
    averageRating: Option<real>,
    ticketPrice: Option<real>,
    cast: Option<string>,
    creatorId: Option<int>)

  /** The column names `setattr` may be given. */
  datatype Attr = Id | Title | Description | ReleaseDate | Director | Genre | AverageRating | TicketPrice | Cast | CreatorId

  /** A column value as Python holds it. */
  datatype Value = Int(i: int) | Text(s: string) | Day(d: CalendarDate) | Decimal(r: real) | Null

  function OptText(o: Option<string>): Value {
    if o.Some? then Text(o.value) else Null
  }

  function OptDecimal(o: Option<real>): Value {
    if o.Some? then Decimal(o.value) else Null
  }

  /** `getattr(movie, a)`. */
  function Get(m: Movie, a: Attr): Value {
    match a
    case Id => Int(m.id)
    case Title => Text(m.title)
    case Description => OptText(m.description)
    case ReleaseDate => if m.releaseDate.Some? then Day(m.releaseDate.value) else Null
    case Director => OptText(m.director)
    case Genre => OptText(m.genre)
    case AverageRating => OptDecimal(m.averageRating)
    case TicketPrice => OptDecimal(m.ticketPrice)
    case Cast => OptText(m.cast)
    case CreatorId => if m.creatorId.Some? then Int(m.creatorId.value) else Null
  }

  /** Whether column `a` can hold `v` (title and id are not nullable). */
  predicate Fits(a: Attr, v: Value) {
    match a
    case Id => v.Int?
    case Title => v.Text?
    case Description => v.Text? || v.Null?
    case ReleaseDate => v.Day? || v.Null?
    case Director => v.Text? || v.Null?
    case Genre => v.Text? || v.Null?
    case AverageRating => v.Decimal? || v.Null?
    case TicketPrice => v.Decimal? || v.Null?
    case Cast => v.Text? || v.Null?
    case CreatorId => v.Int? || v.Null?
  }

  /** A movie is determined by its attributes. */
  lemma AttributesDetermineMovie(m: Movie, n: Movie)
    requires forall a :: Get(m, a) == Get(n, a)
    ensures m == n
  {
    assert Get(m, Id) == Get(n, Id) && Get(m, Title) == Get(n, Title);
    assert Get(m, Description) == Get(n, Description) && Get(m, ReleaseDate) == Get(n, ReleaseDate);
    assert Get(m, Director) == Get(n, Director) && Get(m, Genre) == Get(n, Genre);
    assert Get(m, AverageRating) == Get(n, AverageRating) && Get(m, TicketPrice) == Get(n, TicketPrice);
    assert Get(m, Cast) == Get(n, Cast) && Get(m, CreatorId) == Get(n, CreatorId);
  }

  /** `setattr(movie, a, v)`: attribute `a` reads `v` afterwards and no other attribute changes. */
  function Set(m: Movie, a: Attr, v: Value): (r: Movie)
    requires Fits(a, v)
    ensures Get(r, a) == v
    ensures forall b :: b != a ==> Get(r, b) == Get(m, b)
  {
    match a
    case Id => m.(id := v.i)
    case Title => m.(title := v.s)
    case Description => m.(description := if v.Text? then Some(v.s) else None)
    case ReleaseDate => m.(releaseDate := if v.Day? then Some(v.d) else None)
    case Director => m.(director := if v.Text? then Some(v.s) else None)
    case Genre => m.(genre := if v.Text? then Some(v.s) else None)
    case AverageRating => m.(averageRating := if v.Decimal? then Some(v.r) else None)
    case TicketPrice => m.(ticketPrice := if v.Decimal? then Some(v.r) else None)
    case Cast => m.(cast := if v.Text? then Some(v.s) else None)
    case CreatorId => m.(creatorId := if v.Int? then Some(v.i) else None)
  }

  /**
    `Movie.update(**kwargs)`: set each named attribute in turn.  Afterwards
    exactly the named attributes hold the given values and every other
    attribute is as before.
   */
  method Update(m: Movie, kwargs: map<Attr, Value>) returns (r: Movie)
    requires forall a :: a in kwargs ==> Fits(a, kwargs[a])
    ensures forall a :: Get(r, a) == if a in kwargs then kwargs[a] else Get(m, a)
  {
    r := m;
    var pending := kwargs.Keys;
    while pending != {}
      invariant pending <= kwargs.Keys
      invariant forall a :: Get(r, a) == if a in kwargs && a !in pending then kwargs[a] else Get(m, a)
      decreases pending
    {
      var a :| a in pending;
      r := Set(r, a, kwargs[a]);
      pending := pending - {a};
    }
  }

  /** An update with no keyword arguments leaves the movie as it was. */
  method EmptyUpdateIsNoOp(m: Movie) returns (r: Movie)
    ensures r == m
  {
    r := Update(m, map[]);
    AttributesDetermineMovie(r, m);
  }

  // ---------------------------------------------------------------------
  // Serialization
  // ---------------------------------------------------------------------

  /** The dictionary `Movie.serialize` builds; `creator_id` is not part of it. */
  datatype SerializedMovie = SerializedMovie(
    id: int,
    title: string,
    description: Option<string>,
    releaseDate: Option<string>,
    director: Option<string>,
    genre: Option<string>,
    averageRating: Option<real>,
    ticketPrice: Option<real>,
    cast: Option<string>)

  /**
    `Movie.serialize`: the columns copied as stored (the stored
    `average_rating` included, no ratings are read) and the release date as
    ISO text, or null when there is none.  The text is a valid YYYY-MM-DD
    date that parses back to the stored date.
   */
  function Serialize(m: Movie): (s: SerializedMovie)
    ensures s.id == m.id && s.title == m.title && s.description == m.description
    ensures s.director == m.director && s.genre == m.genre && s.cast == m.cast
    ensures s.averageRating == m.averageRating && s.ticketPrice == m.ticketPrice
    ensures s.releaseDate.None? <==> m.releaseDate.None?
    ensures s.releaseDate.Some? ==>
              IsValidDate(s.releaseDate.value) && ParseDate(s.releaseDate.value) == m.releaseDate
  {
    SerializedMovie(m.id, m.title, m.description, IsoText(m.releaseDate), m.director, m.genre,
                    m.averageRating, m.ticketPrice, m.cast)
  }

  /** `date.isoformat() if date else None`. */
  function IsoText(date: Option<CalendarDate>): (t: Option<string>)
    ensures t.None? <==> date.None?
    ensures t.Some? ==> IsValidDate(t.value) && ParseDate(t.value) == date
  {
    if date.Some? then
      ParseFormat(date.value);
      Some(Format(date.value))
    else None
  }

  // ---------------------------------------------------------------------
  // Rating
  // ---------------------------------------------------------------------

  /** A row of the rating table: one user's score for one movie. */
  datatype Rating = Rating(userId: int, movieId: int, rating: int)
}

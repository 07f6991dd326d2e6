/** The `enums` module of src-tauri/src/types.rs: permission levels and media types. */
module Enums {
  import opened Wrappers

  /** Declared in this order in the source; `None` is the default. */
  datatype PermissionLevel = Basic | User | Manager | Admin | Dev | None

  datatype MediaType = Book | VideoGame | Movie | Music | None

  /** `std::cmp::Ordering` */
  datatype Ordering = Less | Equal | Greater

  /** `PermissionLevel::to_ordinal`: the rank that all comparisons use. */
  function ToOrdinal(p: PermissionLevel): (r: nat)
    ensures r <= 5
    ensures r == 0 <==> p == PermissionLevel.None
  {
    match p
    case None => 0
    case Basic => 1
    case User => 2
    case Manager => 3
    case Admin => 4
    case Dev => 5
  }

  /** `PartialEq::eq` for permission levels: equal ordinals. */
  predicate Eq(a: PermissionLevel, b: PermissionLevel): (r: bool)
    ensures r <==> a == b
  {
    ToOrdinal(a) == ToOrdinal(b)
  }

  /** `PartialOrd::partial_cmp` for permission levels: compare the ordinals. */
  function PartialCmp(a: PermissionLevel, b: PermissionLevel): (r: Option<Ordering>)
    ensures r.Some?
    ensures r.value == Less <==> ToOrdinal(a) < ToOrdinal(b)
    ensures r.value == Greater <==> ToOrdinal(b) < ToOrdinal(a)
  {
    var x, y := ToOrdinal(a), ToOrdinal(b);
    Some(if x < y then Less else if x == y then Equal else Greater)
  }

  /** The `<` operator Rust derives from `partial_cmp`. */
  predicate Below(a: PermissionLevel, b: PermissionLevel): (r: bool)
    ensures r <==> ToOrdinal(a) < ToOrdinal(b)
  {
    PartialCmp(a, b) == Some(Less)
  }

  /** `eq` is plain equality of levels, and agrees with `partial_cmp` answering `Equal`. */
  lemma EqIsIdentity(a: PermissionLevel, b: PermissionLevel)
    ensures Eq(a, b) <==> a == b
    ensures Eq(a, b) <==> PartialCmp(a, b) == Some(Equal)
  {
  }

  /** The levels are totally ordered: None < Basic < User < Manager < Admin < Dev. */
  lemma PermissionOrder()
    ensures Below(PermissionLevel.None, Basic) && Below(Basic, User) && Below(User, Manager)
    ensures Below(Manager, Admin) && Below(Admin, Dev)
    ensures forall a, b :: Below(a, b) || a == b || Below(b, a)
    ensures forall a, b :: !(Below(a, b) && Below(b, a))
    ensures forall a, b, c :: Below(a, b) && Below(b, c) ==> Below(a, c)
  {
  }

  /** `Display for PermissionLevel`. */
  function LevelName(p: PermissionLevel): (r: string)
    ensures |r| > 0
  {
    match p
    case Basic => "Basic"
    case User => "User"
    case Manager => "Manager"
    case Admin => "Admin"
    case Dev => "Dev"
    case None => "None"
  }

  /** Distinct levels display differently, so the string `get_rank` returns identifies the level. */
  lemma LevelNameInjective(a: PermissionLevel, b: PermissionLevel)
    ensures LevelName(a) == LevelName(b) <==> a == b
  {
  }

  /** `Display for MediaType`; note the space in "Video Game". */
  function MediaTypeName(t: MediaType): (r: string)
    ensures |r| > 0
  {
    match t
    case Book => "Book"
    case VideoGame => "Video Game"
    case Movie => "Movie"
    case Music => "Music"
    case None => "None"
  }

  lemma MediaTypeNameInjective(a: MediaType, b: MediaType)
    ensures MediaTypeName(a) == MediaTypeName(b) <==> a == b
  {
  }
}

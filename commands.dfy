/**
 * The commands src-tauri/src/main.rs offers the front end. Each one first locks the
 * `Mutex<App>` that Tauri manages; that lock is the parameter `appLock`. The JSON the
 * commands answer with is left as the records it would serialise.
 */
module Commands {
  import opened Wrappers
  import opened Text
  import opened Collections
  import Enums
  import opened Security
  import opened Structs
  import opened Tries
  import opened Loading
  import opened AppState

  const NoMediaFound: string := "No media found"
  const NoUser: string := "Could not find user"
  const BadCart: string := "Failed to parse cart data"
  const CheckoutDone: string := "Checkout successful"

  /** `authenticate`: lock the app, then `App::authenticate_employee`. */
  method Authenticate(app: App, id: u16, password: string, verify: Verifier,
                      appLock: LockResult, employeesLock: LockResult)
    returns (r: Result<bool, string>)
    modifies app`user
    ensures appLock.Poisoned? || employeesLock.Poisoned? ==> r == Err(LockFailed)
    ensures appLock.Acquired? && employeesLock.Acquired? ==>
              r == Ok(Verified(app.employees, id, password, verify))
    ensures app.user == if r == Ok(true) then id else old(app.user)
  {
    if appLock.Poisoned? {
      return Err(LockFailed);
    }
    r := app.AuthenticateEmployee(id, password, verify, employeesLock);
  }

  /**
   * `get_media`: every cached media record, in the map's iteration order `order`.
   */
  function GetMedia(app: App, appLock: LockResult, order: seq<u16>): (r: Result<seq<Media>, string>)
    reads app
    requires IsKeyOrder(order, app.media.Keys)
    ensures appLock.Poisoned? <==> r == Err(LockFailed)
    ensures r.Ok? ==> |r.value| == |app.media|
    ensures r.Ok? ==> forall k | k in app.media :: app.media[k] in r.value
    ensures r.Ok? ==> forall x | x in r.value :: exists k | k in app.media :: app.media[k] == x
  {
    if appLock.Poisoned? then Err(LockFailed) else Ok(HashmapToVec(app.media, order))
  }

  /** With the records under their own ids, as the cache keeps them, `get_media` lists each once. */
  lemma GetMediaListsEachOnce(app: App, appLock: LockResult, order: seq<u16>)
    requires IsKeyOrder(order, app.media.Keys) && KeyedById(app.media, MediaId)
    requires appLock.Acquired?
    ensures Distinct(GetMedia(app, appLock, order).value)
    ensures forall k | k in app.media :: multiset(GetMedia(app, appLock, order).value)[app.media[k]] == 1
  {
    HashmapToVecOnce(app.media, order, MediaId);
  }

  /** The cached record under `k` has a lower-cased name beginning with `search`. */
  ghost predicate Matches(media: map<u16, Media>, search: string, k: u16) {
    k in media && IsPrefix(search, ToLower(media[k].name))
  }

  /** Some record of `found` has, as stored, the lower-cased name `lower`. */
  predicate NameTaken(found: seq<Media>, lower: string) {
    exists m | m in found :: m.name == lower
  }

  /**
   * What `search_media` has built once it visited every key outside `pending`: distinct
   * matching records taken from the cache, none named as a later one's lower-cased name,
   * and every visited match either kept or hidden by a kept record of that name.
   */
  ghost predicate Found(media: map<u16, Media>, search: string, found: seq<Media>, pending: set<u16>) {
    && Distinct(found)
    && (forall m | m in found :: m.id in media && media[m.id] == m && m.id !in pending && Matches(media, search, m.id))
    && (forall i, j | 0 <= i < j < |found| :: found[i].name != ToLower(found[j].name))
    && (forall k | Matches(media, search, k) && k !in pending ::
          media[k] in found || NameTaken(found, ToLower(media[k].name)))
  }

  lemma FoundKeep(media: map<u16, Media>, search: string, found: seq<Media>, pending: set<u16>, k: u16)
    requires KeyedById(media, MediaId) && Found(media, search, found, pending)
    requires k in pending && Matches(media, search, k) && !NameTaken(found, ToLower(media[k].name))
    ensures Found(media, search, found + [media[k]], pending - {k})
  {
  }

  lemma FoundSkip(media: map<u16, Media>, search: string, found: seq<Media>, pending: set<u16>, k: u16)
    requires Found(media, search, found, pending)
    requires k in pending && (!Matches(media, search, k) || NameTaken(found, ToLower(media[k].name)))
    ensures Found(media, search, found, pending - {k})
  {
  }

  /**
   * `search_media`: the cached media records whose lower-cased name begins with `search`,
   * visited in the map's iteration order (here any order), skipping a record when a kept
   * record's name, as stored, equals the candidate's lower-cased name.
   */
  method SearchMedia(app: App, appLock: LockResult, search: string) returns (r: Result<seq<Media>, string>)
    requires app.Valid()
    ensures appLock.Poisoned? ==> r == Err(LockFailed)
    ensures appLock.Acquired? ==>
              (r == Err(NoMediaFound) <==>
                 MediaTable !in app.trie ||
                 (search != [] && forall s | s in app.CachedNames(MediaKind) :: !IsPrefix(search, s)))
    ensures appLock.Acquired? && HasUpper(search) ==> r == Err(NoMediaFound)
    ensures r.Ok? ==> Found(app.media, search, r.value, {})
    ensures r.Ok? ==> forall k | Matches(app.media, search, k)
                                 && (forall j | j in app.media :: app.media[j].name != ToLower(app.media[k].name)) ::
              app.media[k] in r.value
  {
    if appLock.Poisoned? {
      return Err(LockFailed);
    }
    var names := app.SearchById(MediaKind, search);
    if names.None? {
      return Err(NoMediaFound);
    }
    var found: seq<Media> := [];
    var pending := app.media.Keys;
    while pending != {}
      invariant pending <= app.media.Keys
      invariant Found(app.media, search, found, pending)
      decreases pending
    {
      var k :| k in pending;
      var medName := ToLower(app.media[k].name);
      assert medName in app.CachedNames(MediaKind);
      if medName in names.value && !NameTaken(found, medName) {
        FoundKeep(app.media, search, found, pending, k);
        found := found + [app.media[k]];
      } else {
        FoundSkip(app.media, search, found, pending, k);
      }
      pending := pending - {k};
    }
    r := Ok(found);
  }

  /**
   * The name check compares a kept record's name as stored with the candidate's
   * lower-cased name, so records whose names differ only in case, none of them
   * lower-case, are all kept: a search for "du" over "Dune" and "DUNE" returns both.
   */
  lemma CaseVariantsBothKept(a: Media, b: Media, found: seq<Media>)
    requires a.id == 1 && a.name == "Dune" && b.id == 2 && b.name == "DUNE"
    requires Found(map[1 := a, 2 := b], "du", found, {})
    ensures a in found && b in found && |found| == 2
  {
    var media := map[1 := a, 2 := b];
    assert ToLower("Dune") == "dune" && ToLower("DUNE") == "dune";
    assert Matches(media, "du", 1) && Matches(media, "du", 2);
    assert !NameTaken(found, "dune") by {
      forall m | m in found ensures m.name != "dune" {
        assert m.id == 1 || m.id == 2;
      }
    }
    assert a != b;
    assert |Elements(found)| == |found| by { DistinctCard(found); }
    assert Elements(found) == {a, b} by {
      forall m | m in found ensures m == a || m == b {
        assert m.id == 1 || m.id == 2;
      }
    }
  }

  /**
   * A record is hidden only by a kept record that bears its lower-cased name as
   * stored: of "dune" and "Dune", "dune" is always kept, and "Dune" only when it
   * was visited first.
   */
  lemma LowerCaseNameHidesOnlyLater(a: Media, b: Media, found: seq<Media>)
    requires a.id == 1 && a.name == "dune" && b.id == 2 && b.name == "Dune"
    requires Found(map[1 := a, 2 := b], "du", found, {})
    ensures a in found
    ensures b in found ==> found == [b, a]
  {
    var media := map[1 := a, 2 := b];
    assert ToLower("dune") == "dune" && ToLower("Dune") == "dune";
    assert Matches(media, "du", 1) && Matches(media, "du", 2);
    if NameTaken(found, "dune") {
      var m :| m in found && m.name == "dune";
      assert m.id == 1 || m.id == 2;
    }
    if b in found {
      assert a != b;
      DistinctCard(found);
      assert Elements(found) == {a, b} by {
        forall m | m in found ensures m == a || m == b {
          assert m.id == 1 || m.id == 2;
        }
      }
      assert |found| == 2;
      assert found[0] == b by {
        assert found[0].name != ToLower(found[1].name);
      }
    }
  }

  /** `get_rank`: the signed-in employee's permission level, as its display text. */
  function GetRank(app: App, appLock: LockResult, employeesLock: LockResult): (r: Result<string, string>)
    reads app
    ensures appLock.Poisoned? ==> r == Err(LockFailed)
    ensures appLock.Acquired? ==>
              (r == Err(NoUser) <==> employeesLock.Poisoned? || app.user !in app.employees)
    ensures r.Ok? <==> appLock.Acquired? && employeesLock.Acquired? && app.user in app.employees
    ensures r.Ok? ==> r.value == Enums.LevelName(app.employees[app.user].perm_level)
  {
    if appLock.Poisoned? then Err(LockFailed)
    else
      match app.GetPermissionLevel(employeesLock)
      case None => Err(NoUser)
      case Some(level) => Ok(Enums.LevelName(level))
  }

  /** The rank text names exactly one permission level: the signed-in employee's. */
  lemma RankIdentifiesLevel(app: App, appLock: LockResult, employeesLock: LockResult, level: Enums.PermissionLevel)
    requires GetRank(app, appLock, employeesLock) == Ok(Enums.LevelName(level))
    ensures app.user in app.employees && app.employees[app.user].perm_level == level
  {
  }

  /**
   * `media_checkout`: `cart` is the parsed cart, None when it is not valid JSON; `requested`
   * is the ids collected from it, None on a parse error or a poisoned lock. The
   * `rent_media` futures are dropped without being awaited, so no media record is rented
   * and the answer does not depend on the ids.
   */
  method MediaCheckout(app: App, cart: Option<seq<Media>>, appLock: LockResult)
    returns (r: Result<string, string>, requested: Option<seq<u16>>)
    ensures cart.None? ==> r == Err(BadCart)
    ensures cart.Some? && appLock.Poisoned? ==> r == Err(LockFailed)
    ensures cart.Some? && appLock.Acquired? ==> r == Ok(CheckoutDone)
    ensures requested.Some? <==> r.Ok?
    ensures requested.Some? ==>
              |requested.value| == |cart.value| &&
              forall i | 0 <= i < |cart.value| :: requested.value[i] == cart.value[i].id
  {
    if cart.None? {
      return Err(BadCart), None;
    }
    var ids := seq(|cart.value|, i requires 0 <= i < |cart.value| => cart.value[i].id);
    if appLock.Poisoned? {
      return Err(LockFailed), None;
    }
    return Ok(CheckoutDone), Some(ids);
  }
}

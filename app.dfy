/**
 * The in-memory cache of src-tauri/src/app.rs: the `App` that keeps the employee and
 * media records keyed by id, one trie of lower-cased names per table, and the id of
 * the signed-in employee.
 *
 * The remote store (`DbTool`), the Tokio runtime and the locks are not part of this
 * model. What the store fetched or answered reaches a method as a parameter, and each
 * `Mutex::lock` whose failure the source handles is a `LockResult` parameter.
 */
module AppState {
  import opened Wrappers
  import opened Text
  import opened Collections
  import Enums
  import opened Security
  import opened Structs
  import opened Tries
  import opened Loading

  const LockFailed: string := "Failed to acquire lock"
  const UserNotFound: string := "User not found"
  const MediaNotFound: string := "Media not found"
  const UpdateFailed: string := "Failed to update on database"

  /** `DbToolError` of the remote store. */
  datatype DbToolError = FailConnect | FailQuery | EntryExists | BadEntry

  /** A record kind: the type parameter `T: DisplayInfo` of the generic operations. */
  datatype Kind = EmployeeKind | MediaKind

  /** `DisplayInfo::get_table_name`: one table per kind, so the kinds never share a trie. */
  function TableName(kind: Kind): (r: string)
    ensures kind.EmployeeKind? <==> r == EmployeeTable
    ensures kind.MediaKind? <==> r == MediaTable
  {
    match kind
    case EmployeeKind => EmployeeTable
    case MediaKind => MediaTable
  }

  /** The rows `DbTool::get_table::<T>` fetched, as handed to `update_data`. */
  datatype TableData = EmployeeRows(employees: seq<Employee>) | MediaRows(media: seq<Media>)

  function KindOf(data: TableData): Kind {
    match data
    case EmployeeRows(_) => EmployeeKind
    case MediaRows(_) => MediaKind
  }

  /** `verify_password(employees[id].password, password)` succeeded with `true`. */
  predicate Verified(employees: map<u16, Employee>, id: u16, password: string, verify: Verifier) {
    id in employees && verify(employees[id].password, password) == Ok(true)
  }

  class App {
    var employees: map<u16, Employee>
    var media: map<u16, Media>
    var trie: map<string, Trie>
    var user: u16

    /** The lower-cased names of the cached records of `kind`. */
    ghost function CachedNames(kind: Kind): set<string>
      reads this
    {
      match kind
      case EmployeeKind => LowerNames(employees, EmployeeName)
      case MediaKind => LowerNames(media, MediaName)
    }

    /**
     * Each cached record sits under its own id, and a table's trie, once built, stores
     * exactly the lower-cased names of the cached records of that table.
     */
    ghost predicate Valid()
      reads this, trie.Values
    {
      && KeyedById(employees, EmployeeId)
      && KeyedById(media, MediaId)
      && trie.Keys <= {EmployeeTable, MediaTable}
      && (EmployeeTable in trie ==> Indexes(trie[EmployeeTable], CachedNames(EmployeeKind)))
      && (MediaTable in trie ==> Indexes(trie[MediaTable], CachedNames(MediaKind)))
    }

    /** `App::new` once connected: empty caches, no trie, and user 0 (nobody signed in). */
    constructor ()
      ensures Valid()
      ensures employees == map[] && media == map[] && trie == map[] && user == 0
    {
      employees, media, trie, user := map[], map[], map[], 0;
    }

    /**
     * `authenticate_employee`. An unknown id, a wrong password and a verifier error all
     * answer `Ok(false)`; only a poisoned lock is an error. Success signs the employee in.
     */
    method AuthenticateEmployee(employee_id: u16, password: string, verify: Verifier, lock: LockResult)
      returns (r: Result<bool, string>)
      modifies this`user
      ensures lock.Poisoned? ==> r == Err(LockFailed)
      ensures lock.Acquired? ==> r == Ok(Verified(employees, employee_id, password, verify))
      ensures user == if r == Ok(true) then employee_id else old(user)
    {
      if lock.Poisoned? {
        return Err(LockFailed);
      }
      // `.get(..).and_then(|emp| verify_password(..).ok())`
      var checked: Option<bool> := None;
      if employee_id in employees {
        match verify(employees[employee_id].password, password)
        case Ok(b) => checked := Some(b);
        case Err(_) => checked := None;
      }
      // `.map_or(Ok(false), ..)`; the `or_else` after it never sees an `Err`
      if checked.None? {
        r := Ok(false);
      } else {
        if checked.value {
          user := employee_id;
        }
        r := Ok(checked.value);
      }
    }

    /** `get_permission_level`: the signed-in employee's level, if that employee is cached. */
    function GetPermissionLevel(lock: LockResult): (r: Option<Enums.PermissionLevel>)
      reads this
      ensures r.Some? <==> lock.Acquired? && user in employees
      ensures r.Some? ==> r.value == employees[user].perm_level
    {
      if lock.Poisoned? || user !in employees then None else Some(employees[user].perm_level)
    }

    /** `get_current_user`: a copy of the signed-in employee's record. */
    function GetCurrentUser(lock: LockResult): (r: Result<Employee, string>)
      reads this
      ensures lock.Poisoned? ==> r == Err(LockFailed)
      ensures lock.Acquired? ==> (r.Ok? <==> user in employees)
      ensures lock.Acquired? && user !in employees ==> r == Err(UserNotFound)
      ensures r.Ok? ==> r.value == employees[user]
    {
      if lock.Poisoned? then Err(LockFailed)
      else if user in employees then Ok(employees[user])
      else Err(UserNotFound)
    }

    /**
     * `search_by_id::<T>`: the lower-cased names of the cached records of `kind` that
     * begin with `search`, or None before the table's trie is built or when no name
     * begins with `search`. The query is used as given: it is not lower-cased.
     */
    method SearchById(kind: Kind, search: string) returns (r: Option<seq<string>>)
      requires Valid()
      ensures TableName(kind) !in trie ==> r.None?
      ensures TableName(kind) in trie && search != [] ==>
                (r.None? <==> forall s | s in CachedNames(kind) :: !IsPrefix(search, s))
      ensures TableName(kind) in trie && search == [] ==> r.Some?
      ensures r.Some? ==> Distinct(r.value)
      ensures r.Some? ==> forall s :: s in r.value <==> IsPrefix(search, s) && s in CachedNames(kind)
      ensures HasUpper(search) ==> r.None?
    {
      var table := TableName(kind);
      if table !in trie {
        return None;
      }
      r := trie[table].StartsWith(search);
      assert Indexes(trie[table], CachedNames(kind));
    }

    /**
     * `update_data::<T>`: the cache of that kind becomes `vec_to_hashmap(rows)` and its
     * table's trie entry a new trie of the cached names. The other kind is untouched.
     * A poisoned lock is taken over (`into_inner`), so this never fails.
     */
    method UpdateData(data: TableData)
      requires Valid()
      modifies this
      ensures Valid()
      ensures user == old(user)
      ensures data.EmployeeRows? ==>
                employees == VecToHashmap(data.employees, EmployeeId) && media == old(media)
      ensures data.MediaRows? ==>
                media == VecToHashmap(data.media, MediaId) && employees == old(employees)
      ensures trie.Keys == old(trie.Keys) + {TableName(KindOf(data))}
      ensures fresh(trie[TableName(KindOf(data))])
      ensures forall k | k in old(trie) && k != TableName(KindOf(data)) :: trie[k] == old(trie[k])
    {
      match data
      case EmployeeRows(rows) =>
        employees := VecToHashmap(rows, EmployeeId);
        var t := HashmapToTrie(employees, EmployeeName);
        trie := trie[EmployeeTable := t];
      case MediaRows(rows) =>
        media := VecToHashmap(rows, MediaId);
        var t := HashmapToTrie(media, MediaName);
        trie := trie[MediaTable := t];
    }

    /**
     * `refresh_all_data`: both caches are rebuilt from the rows fetched from the remote
     * store, and both tables get a trie. The signed-in user is kept.
     */
    method RefreshAllData(employee_rows: seq<Employee>, media_rows: seq<Media>)
      requires Valid()
      modifies this
      ensures Valid()
      ensures employees == VecToHashmap(employee_rows, EmployeeId)
      ensures media == VecToHashmap(media_rows, MediaId)
      ensures trie.Keys == {EmployeeTable, MediaTable}
      ensures user == old(user)
    {
      UpdateData(EmployeeRows(employee_rows));
      UpdateData(MediaRows(media_rows));
    }

    /**
     * `rent_media`: sends the remote store a copy of the cached record with the signed-in
     * employee's name as renter. `sent` is that copy, or None when an error came first.
     * `database_update` stands for the remote store's answer. The caches are never
     * changed, whatever the answer.
     */
    method RentMedia(media_id: u16, employees_lock: LockResult, media_lock: LockResult,
                     database_update: Media -> Result<(), DbToolError>)
      returns (r: Result<(), string>, sent: Option<Media>)
      requires Valid()
      ensures employees_lock.Poisoned? ==> r == Err(LockFailed)
      ensures employees_lock.Acquired? && user !in employees ==> r == Err(UserNotFound)
      ensures employees_lock.Acquired? && user in employees && media_lock.Poisoned? ==> r == Err(LockFailed)
      ensures employees_lock.Acquired? && user in employees && media_lock.Acquired? && media_id !in media ==>
                r == Err(MediaNotFound)
      ensures sent.Some? <==>
                employees_lock.Acquired? && user in employees && media_lock.Acquired? && media_id in media
      ensures sent.Some? ==> && sent.value.renter == employees[user].name
                             && AgreeExcept(media[media_id], sent.value, RenterField)
      ensures sent.Some? ==> r == if database_update(sent.value).Ok? then Ok(()) else Err(UpdateFailed)
    {
      sent := None;
      var current := GetCurrentUser(employees_lock);
      if current.Err? {
        return Err(current.error), None;
      }
      if media_lock.Poisoned? {
        return Err(LockFailed), None;
      }
      if media_id !in media {
        return Err(MediaNotFound), None;
      }
      var copy := SetRenter(media[media_id], EmployeeName(current.value));
      sent := Some(copy);
      match database_update(copy)
      case Ok(_) => r := Ok(());
      case Err(_) => r := Err(UpdateFailed);
    }
  }
}

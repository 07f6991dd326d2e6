/**
 * The records of src-tauri/src/types.rs (`structs::Employee`, `structs::Media`) and
 * their `DisplayInfo` capabilities. Rust structs are moved or cloned, never shared, so
 * records are values; a setter that takes `&mut self` gives back the updated value.
 */
module Structs {
  import opened Wrappers
  import opened Text
  import opened Enums
  import opened Security

  type u16 = x: int | 0 <= x < 0x1_0000

  datatype Employee = Employee(
    id: u16,
    name: string,
    department: string,
    boss_id: u16,
    project: string,
    subject: string,
    alloc_budget: u16,
    perm_level: PermissionLevel,
    password: string)

  datatype Media = Media(
    id: u16,
    media_type: MediaType,
    name: string,
    borrowable: bool,
    vendor: string,
    renter: string)

  /** `DisplayInfo::get_table_name` of each record kind. */
  const EmployeeTable: string := "Employee"
  const MediaTable: string := "Media"

  /** `DisplayInfo::get_id` and `DisplayInfo::get_name`. */
  function EmployeeId(e: Employee): u16 { e.id }
  function EmployeeName(e: Employee): string { e.name }
  function MediaId(m: Media): u16 { m.id }
  function MediaName(m: Media): string { m.name }

  const MinPasswordBytes: nat := 8
  const ShortPassword: string := "Password should be at least 8 characters long."
  const HashFailed: string := "Error occurred while hashing password"

  /**
   * `Employee::new`. `hashed` is what `hash_str(password)` returns; it is consulted
   * only once the password is long enough. The length is `String::len`, in bytes.
   */
  function NewEmployee(
    id: u16, name: string, department: string, boss_id: u16, project: string,
    subject: string, alloc_budget: u16, perm_level: PermissionLevel, password: string,
    hashed: Result<string, CryptoError>): (r: Result<Employee, string>)
    ensures r.Err? <==> Utf8Len(password) < MinPasswordBytes || hashed.Err?
    ensures Utf8Len(password) < MinPasswordBytes ==> r == Err(ShortPassword)
    ensures Utf8Len(password) >= MinPasswordBytes && hashed.Err? ==> r == Err(HashFailed)
    ensures r.Ok? ==> && r.value.id == id && r.value.name == name
                      && r.value.department == department && r.value.boss_id == boss_id
                      && r.value.project == project && r.value.subject == subject
                      && r.value.alloc_budget == alloc_budget && r.value.perm_level == perm_level
                      && r.value.password == hashed.value
  {
    if Utf8Len(password) < MinPasswordBytes then Err(ShortPassword)
    else match hashed
      case Ok(hash) =>
        Ok(Employee(id, name, department, boss_id, project, subject, alloc_budget, perm_level, hash))
      case Err(_) => Err(HashFailed)
  }

  /** A created employee keeps the digest, which verifies against the plaintext and not a truncation of it. */
  lemma CreatedEmployeeVerifies(
    id: u16, name: string, department: string, boss_id: u16, project: string,
    subject: string, alloc_budget: u16, perm_level: PermissionLevel, password: string,
    digest: string, verify: Verifier)
    requires SoundDigest(verify, digest, password)
    requires Utf8Len(password) >= MinPasswordBytes
    ensures var r := NewEmployee(id, name, department, boss_id, project, subject,
                                 alloc_budget, perm_level, password, Ok(digest));
            && r.Ok?
            && verify(r.value.password, password) == Ok(true)
            && verify(r.value.password, password[..|password| - 1]) == Ok(false)
  {
  }

  /** The two constructor tests: "password" (8 bytes) is accepted, "pass" is rejected. */
  lemma CreateEmployeeTests(digest: string, hashed: Result<string, CryptoError>)
    ensures NewEmployee(10, "John Doe", "IT", 1, "Ambitious Project", "Computer Science",
                        1_000, Manager, "password", Ok(digest)).Ok?
    ensures NewEmployee(10, "John Doe", "IT", 1, "Ambitious Project", "Computer Science",
                        1_000, Manager, "pass", hashed) == Err(ShortPassword)
  {
  }

  /** The check counts bytes: four two-byte characters pass the "8 characters" rule. */
  lemma MultibytePasswordAccepted(digest: string)
    ensures NewEmployee(10, "John Doe", "IT", 1, "Ambitious Project", "Computer Science",
                        1_000, Manager, "éééé", Ok(digest)).Ok?
  {
  }

  /** `Media::new`: stores every argument. */
  function NewMedia(id: u16, media_type: MediaType, name: string, borrowable: bool,
                    vendor: string, renter: string): (r: Media)
    ensures && r.id == id && r.media_type == media_type && r.name == name
            && r.borrowable == borrowable && r.vendor == vendor && r.renter == renter
  {
    Media(id, media_type, name, borrowable, vendor, renter)
  }

  datatype MediaField = IdField | MediaTypeField | NameField | BorrowableField | VendorField | RenterField

  /** `a` and `b` agree on every field except perhaps `f`. */
  predicate AgreeExcept(a: Media, b: Media, f: MediaField) {
    && (f != IdField ==> a.id == b.id)
    && (f != MediaTypeField ==> a.media_type == b.media_type)
    && (f != NameField ==> a.name == b.name)
    && (f != BorrowableField ==> a.borrowable == b.borrowable)
    && (f != VendorField ==> a.vendor == b.vendor)
    && (f != RenterField ==> a.renter == b.renter)
  }

  /** `get_id` and `get_name` of a new employee give back the id and the name it was created with. */
  lemma EmployeeDisplayInfo(
    id: u16, name: string, department: string, boss_id: u16, project: string,
    subject: string, alloc_budget: u16, perm_level: PermissionLevel, password: string,
    hashed: Result<string, CryptoError>)
    requires NewEmployee(id, name, department, boss_id, project, subject, alloc_budget,
                         perm_level, password, hashed).Ok?
    ensures var e := NewEmployee(id, name, department, boss_id, project, subject, alloc_budget,
                                 perm_level, password, hashed).value;
            EmployeeId(e) == id && EmployeeName(e) == name
  {
  }

  // The setters of `Media`: each changes its one field.

  function SetId(m: Media, id: u16): (r: Media)
    ensures r.id == id && AgreeExcept(m, r, IdField)
  {
    m.(id := id)
  }

  function SetMediaType(m: Media, media_type: MediaType): (r: Media)
    ensures r.media_type == media_type && AgreeExcept(m, r, MediaTypeField)
  {
    m.(media_type := media_type)
  }

  function SetName(m: Media, name: string): (r: Media)
    ensures r.name == name && AgreeExcept(m, r, NameField)
  {
    m.(name := name)
  }

  function SetBorrowable(m: Media, borrowable: bool): (r: Media)
    ensures r.borrowable == borrowable && AgreeExcept(m, r, BorrowableField)
  {
    m.(borrowable := borrowable)
  }

  function SetVendor(m: Media, vendor: string): (r: Media)
    ensures r.vendor == vendor && AgreeExcept(m, r, VendorField)
  {
    m.(vendor := vendor)
  }

  function SetRenter(m: Media, renter: string): (r: Media)
    ensures r.renter == renter && AgreeExcept(m, r, RenterField)
  {
    m.(renter := renter)
  }

  /**
   * `get_id` and `get_name` of a new media record give back its id and name, and only
   * `set_id` moves a record to another key of the cache, only `set_name` renames it.
   */
  lemma MediaDisplayInfo(m: Media, f: MediaField, n: Media,
                         id: u16, media_type: MediaType, name: string, borrowable: bool,
                         vendor: string, renter: string)
    requires AgreeExcept(m, n, f)
    ensures MediaId(NewMedia(id, media_type, name, borrowable, vendor, renter)) == id
    ensures MediaName(NewMedia(id, media_type, name, borrowable, vendor, renter)) == name
    ensures f != IdField ==> MediaId(n) == MediaId(m)
    ensures f != NameField ==> MediaName(n) == MediaName(m)
  {
  }
}

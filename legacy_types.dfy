/**
 * The earlier record types of src/types.rs: an `Employee` with an 8-bit id and
 * permission level whose password is kept as given, and a `Media` without an id.
 */
module LegacyTypes {
  import opened Wrappers
  import opened Text
  import Enums
  import Structs

  type u8 = x: int | 0 <= x < 0x100

  datatype MediaType = Book | VideoGame | Movie | Music

  datatype Employee = Employee(
    id: u8,
    name: string,
    department: string,
    boss_id: string,
    project: string,
    subject: string,
    alloc_budget: Structs.u16,
    perm_level: u8,
    password: string)

  datatype Media = Media(
    media_type: MediaType,
    name: string,
    borrowable: bool,
    vendor: string,
    renter: string)

  /**
   * `Employee::new`: refuses a password shorter than 8 bytes (`String::len`), and
   * otherwise stores every argument as given, the password in plain text.
   */
  function NewEmployee(
    id: u8, name: string, department: string, boss_id: string, project: string,
    subject: string, alloc_budget: Structs.u16, perm_level: u8, password: string): (r: Result<Employee, string>)
    ensures r.Err? <==> Utf8Len(password) < Structs.MinPasswordBytes
    ensures r.Err? ==> r.error == Structs.ShortPassword
    ensures r.Ok? ==> && r.value.id == id && r.value.name == name
                      && r.value.department == department && r.value.boss_id == boss_id
                      && r.value.project == project && r.value.subject == subject
                      && r.value.alloc_budget == alloc_budget && r.value.perm_level == perm_level
                      && r.value.password == password
  {
    if Utf8Len(password) < Structs.MinPasswordBytes then Err(Structs.ShortPassword)
    else Ok(Employee(id, name, department, boss_id, project, subject, alloc_budget, perm_level, password))
  }

  /**
   * The two snapshots accept the same passwords: when hashing succeeds, the current
   * `Employee::new` fails exactly when this one does, with the same message.
   */
  lemma SameLengthRule(
    id: u8, name: string, department: string, boss_id: string, project: string,
    subject: string, alloc_budget: Structs.u16, perm_level: u8, password: string,
    current_boss: Structs.u16, level: Enums.PermissionLevel, digest: string)
    ensures var old_r := NewEmployee(id, name, department, boss_id, project, subject,
                                     alloc_budget, perm_level, password);
            var new_r := Structs.NewEmployee(id, name, department, current_boss, project, subject,
                                             alloc_budget, level, password, Ok(digest));
            && (old_r.Err? <==> new_r.Err?)
            && (old_r.Err? ==> old_r.error == new_r.error)
            && (old_r.Ok? ==> new_r.value.password == digest && old_r.value.password == password)
  {
  }

  /** An eight-letter password is accepted and a seven-letter one refused. */
  lemma LengthBoundary()
    ensures NewEmployee(10, "John Doe", "IT", "1", "Ambitious Project", "Computer Science",
                        1000, 1, "password").Ok?
    ensures NewEmployee(10, "John Doe", "IT", "1", "Ambitious Project", "Computer Science",
                        1000, 1, "passwor") == Err(Structs.ShortPassword)
  {
  }

  /** `Media::new`: the five fields, stored as given. */
  function NewMedia(media_type: MediaType, name: string, borrowable: bool, vendor: string,
                    renter: string): (r: Media)
    ensures && r.media_type == media_type && r.name == name && r.borrowable == borrowable
            && r.vendor == vendor && r.renter == renter
  {
    Media(media_type, name, borrowable, vendor, renter)
  }
}

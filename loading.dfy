/**
 * The cache helpers of src-tauri/src/utils.rs (`loading::vec_to_hashmap`,
 * `loading::hashmap_to_vec`, `loading::hashmap_to_trie`); src/utils.rs has the same
 * `vec_to_hashmap`. They are generic over `T: DisplayInfo`: the id and the name of a
 * record are passed as the functions `id` and `name`.
 */
module Loading {
  import opened Text
  import opened Collections
  import opened Structs
  import opened Tries

  /** `forall j > i, v[j]` has another id than `v[i]`: `v[i]` is the last record with its id. */
  predicate LastWithId<T>(v: seq<T>, id: T -> u16, i: int)
    requires 0 <= i < |v|
  {
    forall j | i < j < |v| :: id(v[j]) != id(v[i])
  }

  /**
   * `vec_to_hashmap`: the records keyed by their id. Collecting into a map lets a later
   * record replace an earlier one with the same id.
   */
  function VecToHashmap<T>(v: seq<T>, id: T -> u16): (m: map<u16, T>)
    ensures m.Keys == set x | x in v :: id(x)
    ensures forall k | k in m :: id(m[k]) == k && m[k] in v
    ensures forall i | 0 <= i < |v| && LastWithId(v, id, i) :: m[id(v[i])] == v[i]
    decreases |v|
  {
    if v == [] then map[]
    else
      var init, last := v[..|v| - 1], v[|v| - 1];
      var m := VecToHashmap(init, id)[id(last) := last];
      VecToHashmapStep(v, id, VecToHashmap(init, id), m);
      m
  }

  /** Adding the last record to the map of the ones before it. */
  lemma VecToHashmapStep<T>(v: seq<T>, id: T -> u16, m0: map<u16, T>, m: map<u16, T>)
    requires v != []
    requires m0.Keys == set x | x in v[..|v| - 1] :: id(x)
    requires forall k | k in m0 :: id(m0[k]) == k && m0[k] in v[..|v| - 1]
    requires forall i | 0 <= i < |v| - 1 && LastWithId(v[..|v| - 1], id, i) :: m0[id(v[i])] == v[i]
    requires m == m0[id(v[|v| - 1]) := v[|v| - 1]]
    ensures m.Keys == set x | x in v :: id(x)
    ensures forall k | k in m :: id(m[k]) == k && m[k] in v
    ensures forall i | 0 <= i < |v| && LastWithId(v, id, i) :: m[id(v[i])] == v[i]
  {
  }

  /** Every value of `m` is stored under its own id, as `vec_to_hashmap` leaves it. */
  ghost predicate KeyedById<T>(m: map<u16, T>, id: T -> u16) {
    forall k | k in m :: id(m[k]) == k
  }

  /** `order` lists each key of the map once: the order in which a `HashMap` is iterated. */
  ghost predicate IsKeyOrder(order: seq<u16>, keys: set<u16>) {
    Distinct(order) && Elements(order) == keys
  }

  /**
   * `hashmap_to_vec`: the values of `m`, in the map's iteration order `order`, which the
   * model takes as a parameter because a `HashMap` leaves it unspecified.
   */
  function HashmapToVec<T>(m: map<u16, T>, order: seq<u16>): (r: seq<T>)
    requires IsKeyOrder(order, m.Keys)
    ensures |r| == |m|
    ensures forall k | k in m :: m[k] in r
    ensures forall x | x in r :: exists k | k in m :: m[k] == x
  {
    DistinctCard(order);
    var r := seq(|order|, i requires 0 <= i < |order| => m[order[i]]);
    assert forall k | k in m :: r[IndexOf(order, k)] == m[k];
    r
  }

  /** Where `k` stands in `order`. */
  ghost function IndexOf(order: seq<u16>, k: u16): (i: nat)
    requires k in order
    ensures i < |order| && order[i] == k
  {
    if order[0] == k then 0 else 1 + IndexOf(order[1..], k)
  }

  /** When records carry their key as their id, `hashmap_to_vec` lists each of them exactly once. */
  lemma HashmapToVecOnce<T>(m: map<u16, T>, order: seq<u16>, id: T -> u16)
    requires IsKeyOrder(order, m.Keys) && KeyedById(m, id)
    ensures Distinct(HashmapToVec(m, order))
    ensures forall k | k in m :: multiset(HashmapToVec(m, order))[m[k]] == 1
  {
    var r := HashmapToVec(m, order);
    forall i, j | 0 <= i < j < |r| ensures r[i] != r[j] {
      assert order[i] in m && order[j] in m;
      assert id(r[i]) == order[i] && id(r[j]) == order[j];
    }
    forall k | k in m ensures multiset(r)[m[k]] == 1 {
      DistinctOnce(r, m[k]);
    }
  }

  /** The lower-cased names of the records in `m`: what `hashmap_to_trie` stores. */
  ghost function LowerNames<T>(m: map<u16, T>, name: T -> string): set<string> {
    set k | k in m :: ToLower(name(m[k]))
  }

  /** The lower-cased names of the records whose keys are not in `pending`. */
  ghost function NamesOutside<T>(m: map<u16, T>, name: T -> string, pending: set<u16>): set<string> {
    set k | k in m && k !in pending :: ToLower(name(m[k]))
  }

  lemma NamesOutsideStep<T>(m: map<u16, T>, name: T -> string, pending: set<u16>, k: u16)
    requires k in pending && k in m
    ensures NamesOutside(m, name, pending - {k}) == NamesOutside(m, name, pending) + {ToLower(name(m[k]))}
  {
  }

  /** The trie `t` stores exactly the words of `names`. */
  ghost predicate Indexes(t: Trie, names: set<string>)
    reads t
  {
    t.Valid() && forall s :: Has(t.root, s) <==> s in names
  }

  /**
   * `hashmap_to_trie`: a new trie holding the lower-cased name of every record.
   * Ids play no part, and records with equal names leave one word.
   */
  method HashmapToTrie<T>(m: map<u16, T>, name: T -> string) returns (t: Trie)
    ensures fresh(t)
    ensures Indexes(t, LowerNames(m, name))
  {
    t := new Trie();
    var pending := m.Keys;
    while pending != {}
      invariant pending <= m.Keys
      invariant fresh(t) && t.Valid()
      invariant forall s :: Has(t.root, s) <==> s in NamesOutside(m, name, pending)
      decreases pending
    {
      var k :| k in pending;
      t.Insert(ToLower(name(m[k])));
      NamesOutsideStep(m, name, pending, k);
      pending := pending - {k};
    }
    assert NamesOutside(m, name, {}) == LowerNames(m, name);
  }
}

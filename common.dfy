/** Shared vocabulary of the model: optional values, the loosely typed values that the
    PHP code stores in Mongo documents, and identifiers. Time is an integer number of
    seconds since the Unix epoch throughout; the current time is always a parameter. */
module Common {

  datatype Option<+T> = None | Some(value: T)

  /** Auth-side user ids are opaque strings (Mongo `_id` of the auth user collection). */
  type UserId = string

  /** A value held in a PHP array that is written to, or read from, Mongo.
      `DateTime` is a PHP `\DateTime`; `StoreDate` is the driver's `UTCDateTime`; `List` is
      a PHP list and `Assoc` an associative array or data-model object. */
  datatype Value =
    | Null
    | Bool(b: bool)
    | Int(i: int)
    | Text(s: string)
    | DateTime(t: int)
    | StoreDate(t: int)
    | List(items: seq<Value>)
    | Assoc(fields: map<string, Value>)

  /** A PHP associative array of values, as stored in one Mongo document. */
  type Doc = map<string, Value>

  /** `DateTime` values become store dates on the way into Mongo; nothing else changes. */
  function ToStore(v: Value): (r: Value)
    ensures v.DateTime? ==> r == StoreDate(v.t)
    ensures !v.DateTime? ==> r == v
  {
    if v.DateTime? then StoreDate(v.t) else v
  }

  /** Store dates become `DateTime` values on the way out of Mongo; nothing else changes. */
  function FromStore(v: Value): (r: Value)
    ensures v.StoreDate? ==> r == DateTime(v.t)
    ensures !v.StoreDate? ==> r == v
  {
    if v.StoreDate? then DateTime(v.t) else v
  }

  /** `array_map` of ToStore over a document: same keys, each value converted. */
  function DocToStore(d: Doc): (r: Doc)
    ensures r.Keys == d.Keys
    ensures forall k :: k in d ==> r[k] == ToStore(d[k])
  {
    map k | k in d :: ToStore(d[k])
  }

  /** `array_map` of FromStore over a document: same keys, each value converted. */
  function DocFromStore(d: Doc): (r: Doc)
    ensures r.Keys == d.Keys
    ensures forall k :: k in d ==> r[k] == FromStore(d[k])
  {
    map k | k in d :: FromStore(d[k])
  }

  /** A log document carries `identity_hash` equal to `hash`. */
  predicate HasIdentityHash(d: Doc, hash: string)
  {
    "identity_hash" in d && d["identity_hash"] == Text(hash)
  }

  /** A document holds no store date: it is what PHP code builds before saving. */
  predicate NoStoreDates(d: Doc)
  {
    forall k :: k in d ==> !d[k].StoreDate?
  }

  /** Writing a PHP-built document and reading it back with the date mapping gives it back. */
  lemma StoreRoundTrip(d: Doc)
    requires NoStoreDates(d)
    ensures DocFromStore(DocToStore(d)) == d
  {
    var back := DocFromStore(DocToStore(d));
    forall k | k in d ensures back[k] == d[k] {
      assert !d[k].StoreDate?;
    }
  }

  /** Concatenation regroups. Stated generically, so that it is proved away from the
      facts about the elements of a particular sequence. */
  lemma AppendAfter<T>(before: seq<T>, log: seq<T>, more: seq<T>)
    ensures (before + log) + more == before + (log + more)
  {
  }

  /** The first part of a concatenation is its prefix of that length; stated generically
      for the same reason. */
  lemma PrefixOfAppend<T>(a: seq<T>, b: seq<T>)
    ensures (a + b)[..|a|] == a
    ensures a[..|a|] == a
  {
  }

  /** A subset is no larger than its superset. */
  lemma {:induction false} SubsetCardinality<T>(a: set<T>, b: set<T>)
    requires a <= b
    ensures |a| <= |b|
    decreases a
  {
    if a != {} {
      var x :| x in a;
      SubsetCardinality(a - {x}, b - {x});
    }
  }

  /** Some element of a non-empty set. Stated generically, so that the choice is also
      available for sets of integers. */
  ghost function Elem<X>(s: set<X>): (x: X)
    requires s != {}
    ensures x in s
  {
    var x :| x in s; x
  }

  /** Moving one element from `todo` to `done` keeps them a partition of `all`. */
  lemma PartitionStep<X>(todo: set<X>, done: set<X>, all: set<X>, x: X)
    requires todo + done == all && todo !! done && x in todo
    ensures (todo - {x}) + (done + {x}) == all && (todo - {x}) !! (done + {x})
    ensures x in all && x !in done
  {
  }
}

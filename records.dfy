/**
 * The plain JavaScript objects the dashboard passes around: a record maps
 * column names to text, keeps its keys in insertion order (`Object.keys`), and
 * an assignment to an existing key replaces the value in place.
 */
module Records {
  import opened Wrappers

  type Record = seq<(string, string)>

  /** The keys of an association list in insertion order, as `Object.keys` lists them. */
  function Keys<K, V>(ps: seq<(K, V)>): (ks: seq<K>)
    ensures |ks| == |ps|
    ensures forall i :: 0 <= i < |ps| ==> ks[i] == ps[i].0
  {
    if |ps| == 0 then [] else [ps[0].0] + Keys(ps[1..])
  }

  /** No key appears twice, as in every JavaScript object. */
  predicate UniqueKeys(r: Record) {
    forall i, j :: 0 <= i < j < |r| ==> r[i].0 != r[j].0
  }

  /** `r[k]`: the value stored under `k`, or `None` for `undefined`. */
  function Lookup(r: Record, k: string): (v: Option<string>)
    ensures v.None? <==> forall i :: 0 <= i < |r| ==> r[i].0 != k
    ensures v.Some? ==> exists i :: 0 <= i < |r| && r[i] == (k, v.value)
  {
    if |r| == 0 then None
    else if r[0].0 == k then Some(r[0].1)
    else Lookup(r[1..], k)
  }

  /** `r[k] = v`: replace the value of an existing key, or append a new key. */
  function Put(r: Record, k: string, v: string): (r': Record)
  {
    if |r| == 0 then [(k, v)]
    else if r[0].0 == k then [(k, v)] + r[1..]
    else [r[0]] + Put(r[1..], k, v)
  }

  /** After `r[k] = v`, `k` reads `v` and every other key reads as before. */
  lemma {:induction false} PutLookup(r: Record, k: string, v: string, q: string)
    ensures Lookup(Put(r, k, v), k) == Some(v)
    ensures q != k ==> Lookup(Put(r, k, v), q) == Lookup(r, q)
    decreases |r|
  {
    if |r| > 0 && r[0].0 != k {
      PutLookup(r[1..], k, v, q);
    }
  }

  /** Assignment keeps the key order; a new key goes to the end. */
  lemma {:induction false} PutKeys(r: Record, k: string, v: string)
    ensures Lookup(r, k).Some? ==> Keys(Put(r, k, v)) == Keys(r)
    ensures Lookup(r, k).None? ==> Keys(Put(r, k, v)) == Keys(r) + [k]
    decreases |r|
  {
    if |r| > 0 && r[0].0 != k {
      PutKeys(r[1..], k, v);
    }
  }

  /** Assignment keeps the keys of a record unique. */
  lemma {:induction false} PutUnique(r: Record, k: string, v: string)
    requires UniqueKeys(r)
    ensures UniqueKeys(Put(r, k, v))
    decreases |r|
  {
    if |r| > 0 && r[0].0 != k {
      PutUnique(r[1..], k, v);
      assert Lookup(r[1..], r[0].0).None?;
      PutLookup(r[1..], k, v, r[0].0);
      var rest := Put(r[1..], k, v);
      assert Lookup(rest, r[0].0).None?;
      assert Put(r, k, v) == [r[0]] + rest;
    }
  }

  /** `r.f || dflt` for a text field: an absent or empty value gives `dflt`. */
  function FieldOr(r: Record, k: string, dflt: string): (s: string)
    ensures Lookup(r, k).Some? && Lookup(r, k).value != "" ==> s == Lookup(r, k).value
    ensures (Lookup(r, k).None? || Lookup(r, k).value == "") ==> s == dflt
  {
    match Lookup(r, k)
    case Some(t) => if t != "" then t else dflt
    case None => dflt
  }

  /** Milliseconds in a minute, an hour, a day and a week. */
  const MinuteMs: int := 60_000
  const HourMs: int := 3_600_000
  const DayMs: int := 86_400_000
  const WeekMs: int := 604_800_000

  /**
   * A row's `Zeitpunkt` as the browser decodes it with `new Date(...)`: the
   * instant in milliseconds with the local hour of day and weekday (0 = Sunday).
   */
  datatype LocalTime = LocalTime(ms: int, hour: int, weekday: int)

  predicate ValidLocalTime(t: LocalTime) {
    0 <= t.hour < 24 && 0 <= t.weekday < 7
  }

  /**
   * A loaded CSV row: its fields, and its `Zeitpunkt` decoded by the browser;
   * `None` when the date is invalid (`isNaN(date)`).
   */
  datatype Row = Row(fields: Record, time: Option<LocalTime>)

  predicate WellFormedRow(r: Row) {
    r.time.Some? ==> ValidLocalTime(r.time.value)
  }

  /** `r.time.getTime()` for a row whose date is valid. */
  function Millis(r: Row): int
    requires r.time.Some?
  {
    r.time.value.ms
  }
}

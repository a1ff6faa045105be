/** The persistence substrate behind the statistics service: a flat store from string keys
    to primitive values, read with Foundation's "absent means zero" defaults. */
module UserDefaults {
  import opened Options
  import opened Foundation

  datatype Value = IntValue(i: int) | DoubleValue(d: Double) | DateValue(date: Date)

  type Storage = map<string, Value>

  /** A store nothing has been written to yet. */
  const Empty: Storage := map[]

  function Lookup(s: Storage, key: string): Option<Value> {
    if key in s then Some(s[key]) else None
  }

  /** A stored value read as an integer: an integer as itself, a finite double truncated
      toward zero, anything else as 0. */
  function IntegerOf(v: Value): (n: int)
    ensures v.IntValue? ==> n == v.i
    ensures v.DoubleValue? && v.d.Finite? ==> n == Truncate(v.d.value)
    ensures v.DateValue? ==> n == 0
  {
    match v
    case IntValue(n) => n
    case DoubleValue(Finite(x)) => Truncate(x)
    case _ => 0
  }

  /** `integer(forKey:)`: the stored value read as an integer, 0 when the key is absent. */
  function Integer(s: Storage, key: string): (n: int)
    ensures key !in s ==> n == 0
    ensures key in s ==> n == IntegerOf(s[key])
  {
    match Lookup(s, key)
    case Some(v) => IntegerOf(v)
    case None => 0
  }

  /** A stored value read as a double: a double as itself, an integer widened exactly,
      a date as 0.0. */
  function DoubleOf(v: Value): (d: Double)
    ensures v.DoubleValue? ==> d == v.d
    ensures v.IntValue? ==> d == Finite(v.i as real)
    ensures v.DateValue? ==> d == Finite(0.0)
  {
    match v
    case DoubleValue(d) => d
    case IntValue(n) => Finite(n as real)
    case DateValue(_) => Finite(0.0)
  }

  /** `double(forKey:)`: the stored value read as a double, 0.0 when the key is absent. */
  function DoubleFor(s: Storage, key: string): (d: Double)
    ensures key !in s ==> d == Finite(0.0)
    ensures key in s ==> d == DoubleOf(s[key])
  {
    match Lookup(s, key)
    case Some(v) => DoubleOf(v)
    case None => Finite(0.0)
  }

  /** `object(forKey:) as? Date`: the stored date, None when absent or not a date. */
  function DateFor(s: Storage, key: string): (d: Option<Date>)
    ensures d.Some? ==> Lookup(s, key) == Some(DateValue(d.value))
    ensures d.None? ==> key !in s || !s[key].DateValue?
  {
    match Lookup(s, key)
    case Some(DateValue(d)) => Some(d)
    case _ => None
  }

  /** `set(_:forKey:)`: the key now holds `v`; every other key holds what it held. */
  function Set(s: Storage, key: string, v: Value): (r: Storage)
    ensures Lookup(r, key) == Some(v)
    ensures forall k :: k != key ==> Lookup(r, k) == Lookup(s, k)
    ensures r.Keys == s.Keys + {key}
  {
    s[key := v]
  }
}

/**
 * The event-type registry (events/events.go): a counter and a map from
 * names to type numbers, created on first use. The package-level variables
 * become the fields of one registry object.
 */
module Events {
  /** Decimal digits of a natural number, most significant first. */
  function Digits(n: nat): (r: string)
    ensures |r| > 0 && forall j :: 0 <= j < |r| ==> '0' <= r[j] <= '9'
    ensures |r| > 1 ==> r[0] != '0'
  {
    if n < 10 then [Digit(n)] else Digits(n / 10) + [Digit(n % 10)]
  }

  function Digit(d: nat): (c: char)
    requires d < 10
    ensures '0' <= c <= '9' && (c as int) - ('0' as int) == d
  {
    (('0' as int) + d) as char
  }

  /** The number a string of decimal digits denotes. */
  function ParseDigits(s: string): int
  {
    if s == [] then 0 else 10 * ParseDigits(s[..|s| - 1]) + ((s[|s| - 1] as int) - ('0' as int))
  }

  /** Reading the digits back gives the number. */
  lemma {:induction false} DigitsRoundTrip(n: nat)
    ensures ParseDigits(Digits(n)) == n
  {
    if n >= 10 {
      DigitsRoundTrip(n / 10);
      var s := Digits(n);
      assert s[..|s| - 1] == Digits(n / 10);
    }
  }

  /** Type.String: strconv.Itoa, a '-' before the digits of a negative type. */
  function TypeString(t: int): (r: string)
    ensures |r| > 0
    ensures t >= 0 <==> r[0] != '-'
  {
    if t < 0 then "-" + Digits(-t) else Digits(t)
  }

  /** The reading TypeString is meant for. */
  function ParseType(s: string): int
  {
    if s != [] && s[0] == '-' then -ParseDigits(s[1..]) else ParseDigits(s)
  }

  /** TypeString renders a type number in a form that reads back as the same number. */
  lemma TypeStringRoundTrip(t: int)
    ensures ParseType(TypeString(t)) == t
  {
    if t < 0 {
      DigitsRoundTrip(-t);
      assert TypeString(t)[1..] == Digits(-t);
    } else {
      DigitsRoundTrip(t);
    }
  }

  /** Different types render differently. */
  lemma TypeStringInjective(t: int, u: int)
    requires TypeString(t) == TypeString(u)
    ensures t == u
  {
    TypeStringRoundTrip(t);
    TypeStringRoundTrip(u);
  }

  class Registry {
    var initialized: bool
    var index: int
    var types: map<string, int>

    /** Before the first AddType nothing is registered; afterwards every type handed out is below the counter. */
    ghost predicate Valid()
      reads this
    {
      0 <= index &&
      (!initialized ==> index == 0 && types == map[]) &&
      forall k :: k in types ==> 0 <= types[k] < index
    }

    /** The package state before any call: not initialised, counter 0, nil map. */
    constructor ()
      ensures Valid() && !initialized && index == 0 && types == map[]
    {
      initialized := false;
      index := 0;
      types := map[];
    }

    /**
     * AddType: on first use the counter is reset and the map created; then
     * `key` is bound to the counter, whose old value is returned and which
     * moves on by one. The number is new: no other name holds it.
     */
    method AddType(key: string) returns (t: int)
      requires Valid()
      modifies this
      ensures Valid() && initialized
      ensures t == (if old(initialized) then old(index) else 0) && index == t + 1
      ensures types == (if old(initialized) then old(types) else map[])[key := t]
      ensures forall k :: k in old(types) ==> old(types)[k] < t
      ensures StringToType(key) == t
    {
      if !initialized {
        index := 0;
        types := map[];
        initialized := true;
      }
      types := types[key := index];
      t := index;
      index := index + 1;
    }

    /** StringToType: the number bound to `key`, or 0 (a read of a missing key or of the nil map). */
    function StringToType(key: string): (t: int)
      reads this
      ensures key in types ==> t == types[key]
      ensures key !in types ==> t == 0
    {
      if key in types then types[key] else 0
    }
  }

  /**
   * Registering `a` then `b` gives consecutive numbers; `a` keeps its number
   * unless `b` is the same name, which is then rebound to the newer one.
   */
  method AddTwo(r: Registry, a: string, b: string) returns (ta: int, tb: int)
    requires r.Valid()
    modifies r
    ensures r.Valid() && tb == ta + 1
    ensures r.StringToType(b) == tb
    ensures r.StringToType(a) == if a == b then tb else ta
  {
    ta := r.AddType(a);
    tb := r.AddType(b);
  }

  /** On a fresh registry the first type is 0, the same number an unregistered name reads as. */
  method FirstType(key: string, other: string) returns (t: int, r: Registry)
    requires other != key
    ensures t == 0 && r.StringToType(key) == 0 && r.StringToType(other) == 0
  {
    r := new Registry();
    t := r.AddType(key);
  }
}

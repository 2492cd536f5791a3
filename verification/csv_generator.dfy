/** The seed-data generator: which real airports are added, which flights
    are drafted between the airports, and how a flight's seats are split
    into fares.  Every random draw is a parameter: a draw for
    `randint(lo, hi)` or `choice(xs)` is an arbitrary `nat` reduced into
    range, so every outcome the generator can produce is some choice of
    draws, and the draw sequences are the only source of variation. */
module CsvGenerator {
  import opened Results
  import opened Tables

  datatype AirportRecord = AirportRecord(code: string, name: string, location: string)

  datatype FlightRecord = FlightRecord(number: string, originCode: string, destinationCode: string,
                                       departure: int, arrival: int, aircraft: string, seatCapacity: int)

  datatype FareRecord = FareRecord(flightNumber: string, name: string, basePrice: real,
                                   baseCurrency: string, seatLimit: int, seatsSold: int)

  /** `ValueError` from `randint` on an empty range or from `sample` on a
      too-small population, `IndexError` from `choice([])` or from indexing
      an empty list, and a flight-number draw list used up without a free
      number (the generator itself would keep drawing). */
  datatype GenError = EmptyRange | SampleTooLarge | IndexError | DrawsExhausted

  const AircraftModels: seq<string> :=
    ["Boeing 737", "Boeing 777", "Airbus A320", "Airbus A330", "Embraer E175", "Bombardier CRJ900"]

  const Currencies: seq<string> := ["USD", "EUR"]

  const FareNames: seq<string> := ["Economy", "Business", "Premium Economy"]

  /** The fixed list of Ukrainian airports with their IATA codes. */
  const RealAirports: seq<AirportRecord> := [
    AirportRecord("KBP", "Міжнародний аеропорт \"Бориспіль\"", "Київ, Україна"),
    AirportRecord("LWO", "Міжнародний аеропорт \"Львів\"", "Львів, Україна"),
    AirportRecord("ODS", "Міжнародний аеропорт \"Одеса\"", "Одеса, Україна"),
    AirportRecord("DOK", "Міжнародний аеропорт \"Дніпро\"", "Дніпро, Україна"),
    AirportRecord("HRK", "Міжнародний аеропорт \"Харків\"", "Харків, Україна"),
    AirportRecord("IEV", "Міжнародний аеропорт \"Київ\"", "Київ, Україна"),
    AirportRecord("GME", "Міжнародний аеропорт \"Запоріжжя\"", "Запоріжжя, Україна"),
    AirportRecord("KRQ", "Міжнародний аеропорт \"Кривий Ріг\"", "Кривий Ріг, Україна"),
    AirportRecord("RWN", "Міжнародний аеропорт \"Рівне\"", "Рівне, Україна"),
    AirportRecord("CWC", "Міжнародний аеропорт \"Чернівці\"", "Чернівці, Україна"),
    AirportRecord("KHE", "Міжнародний аеропорт \"Херсон\"", "Херсон, Україна"),
    AirportRecord("KHC", "Міжнародний аеропорт \"Чернігів\"", "Чернігів, Україна"),
    AirportRecord("VIN", "Міжнародний аеропорт \"Вінниця\"", "Вінниця, Україна"),
    AirportRecord("UDJ", "Міжнародний аеропорт \"Ужгород\"", "Ужгород, Україна"),
    AirportRecord("MPJ", "Міжнародний аеропорт \"Миколаїв\"", "Миколаїв, Україна"),
    AirportRecord("SEV", "Міжнародний аеропорт \"Сєвєродонецьк\"", "Сєвєродонецьк, Україна"),
    AirportRecord("ZTR", "Міжнародний аеропорт \"Житомир\"", "Житомир, Україна"),
    AirportRecord("IFO", "Міжнародний аеропорт \"Івано-Франківськ\"", "Івано-Франківськ, Україна"),
    AirportRecord("PBH", "Міжнародний аеропорт \"Полтава\"", "Полтава, Україна"),
    AirportRecord("HMD", "Міжнародний аеропорт \"Хмільник\"", "Хмільник, Україна")
  ]

  // ---------------------------------------------------------------- random draws

  /** `randint(lo, hi)` driven by the draw `pick`. */
  function RandInt(lo: int, hi: int, pick: nat): (r: Result<int, GenError>)
    ensures r.Err? <==> hi < lo
    ensures r.Ok? ==> lo <= r.value <= hi
  {
    if hi < lo then Err(EmptyRange) else Ok(lo + pick % (hi - lo + 1))
  }

  /** `choice(xs)` driven by the draw `pick`. */
  function Choice<T>(xs: seq<T>, pick: nat): (r: Result<T, GenError>)
    ensures r.Err? <==> |xs| == 0
    ensures r.Ok? ==> r.value in xs
  {
    if |xs| == 0 then Err(IndexError) else Ok(xs[pick % |xs|])
  }

  /** The pool `xs` with position `i` taken out. */
  function Without<T>(xs: seq<T>, i: nat): (r: seq<T>)
    requires i < |xs|
    ensures |r| == |xs| - 1
    ensures forall x :: x in r ==> x in xs
    ensures Distinct(xs) ==> Distinct(r) && xs[i] !in r
  {
    var r := xs[..i] + xs[i + 1..];
    assert forall k :: 0 <= k < |r| ==> r[k] == if k < i then xs[k] else xs[k + 1];
    r
  }

  /** Taking position `i` out removes exactly one copy of `xs[i]`. */
  lemma WithoutOneCopy<T>(xs: seq<T>, i: nat)
    requires i < |xs|
    ensures multiset(Without(xs, i)) + multiset{xs[i]} == multiset(xs)
  {
    assert xs == xs[..i] + [xs[i]] + xs[i + 1..];
  }

  /** Taking position `i` out shifts every later element down by one. */
  lemma WithoutShifts<T>(xs: seq<T>, i: nat)
    requires i < |xs|
    ensures forall k :: 0 <= k < |xs| - 1 ==> Without(xs, i)[k] == if k < i then xs[k] else xs[k + 1]
  {
    assert Without(xs, i) == xs[..i] + xs[i + 1..];
  }

  /** `sample(xs, |picks|)`: one element after another, each drawn from what
      the earlier draws left in the pool.  The draws are without
      replacement: no element occurs in the sample more often than in the
      pool, so a pool without repeats yields a sample without repeats. */
  function Sample<T>(xs: seq<T>, picks: seq<nat>): (r: Result<seq<T>, GenError>)
    ensures r.Err? <==> |picks| > |xs|
    ensures r.Ok? ==> |r.value| == |picks| && forall k :: 0 <= k < |r.value| ==> r.value[k] in xs
    ensures r.Ok? && Distinct(xs) ==> Distinct(r.value)
    decreases |picks|
  {
    if |picks| > |xs| then Err(SampleTooLarge)
    else if |picks| == 0 then Ok([])
    else
      var i := picks[0] % |xs|;
      var rest := Sample(Without(xs, i), picks[1..]);
      var r := [xs[i]] + rest.value;
      assert forall k :: 1 <= k < |r| ==> r[k] == rest.value[k - 1];
      Ok(r)
  }

  /** `sample` draws without replacement: no element occurs in the sample
      more often than in the population. */
  lemma {:induction false} SampleWithoutReplacement<T>(xs: seq<T>, picks: seq<nat>)
    ensures Sample(xs, picks).Ok? ==> multiset(Sample(xs, picks).value) <= multiset(xs)
    decreases |picks|
  {
    if 0 < |picks| <= |xs| {
      var i := picks[0] % |xs|;
      var rest := Without(xs, i);
      SampleWithoutReplacement(rest, picks[1..]);
      WithoutOneCopy(xs, i);
      var tail := Sample(rest, picks[1..]).value;
      assert Sample(xs, picks).value == [xs[i]] + tail;
      assert multiset([xs[i]] + tail) == multiset{xs[i]} + multiset(tail);
    }
  }

  // ---------------------------------------------------------------- airports

  function Codes(airports: seq<AirportRecord>): (r: seq<string>)
    ensures |r| == |airports| && forall k :: 0 <= k < |r| ==> r[k] == airports[k].code
  {
    seq(|airports|, (k: int) requires 0 <= k < |airports| => airports[k].code)
  }

  /** The airports of `catalogue` whose code is not already taken. */
  function Offered(catalogue: seq<AirportRecord>, taken: set<string>): (r: seq<AirportRecord>)
    ensures forall k :: 0 <= k < |r| ==> r[k] in catalogue && r[k].code !in taken
    ensures forall a :: a in catalogue && a.code !in taken ==> a in r
    ensures Distinct(catalogue) ==> Distinct(r)
  {
    Keep(catalogue, (a: AirportRecord) => a.code !in taken)
  }

  /** The real airports whose code is not already taken: each is a real
      airport with a free code, every such airport is offered, none twice. */
  function AvailableAirports(taken: set<string>): (r: seq<AirportRecord>)
    ensures forall k :: 0 <= k < |r| ==> r[k] in RealAirports && r[k].code !in taken
    ensures forall a :: a in RealAirports && a.code !in taken ==> a in r
    ensures Distinct(r)
  {
    RealAirportsDistinct();
    Offered(RealAirports, taken)
  }

  /** A three-letter code packed into one number, letter by letter: two
      codes with different packed numbers are different codes.  This
      encoding is only a proof device: comparing the twenty codes pairwise
      as strings is 190 string comparisons, whereas each packed number
      leading back to its own list position settles distinctness in twenty
      steps. */
  function CodeKey(c: string): int {
    if |c| == 3 then (c[0] as int) * 65536 + (c[1] as int) * 256 + c[2] as int else -1
  }

  /** The packed codes of the real airports, in list order. */
  const RealCodeKeys: seq<int> :=
    [4932176, 5003087, 5194835, 4476747, 4739659, 4801878, 4672837, 4936273, 5396302, 4413251,
     4933701, 4933699, 5654862, 5588042, 5066826, 5457238, 5919826, 4802127, 5259848, 4738372]

  /** The list position of each packed code. */
  const RealCodePosition: map<int, int> :=
    map[4932176 := 0, 5003087 := 1, 5194835 := 2, 4476747 := 3, 4739659 := 4, 4801878 := 5,
        4672837 := 6, 4936273 := 7, 5396302 := 8, 4413251 := 9, 4933701 := 10, 4933699 := 11,
        5654862 := 12, 5588042 := 13, 5066826 := 14, 5457238 := 15, 5919826 := 16, 4802127 := 17,
        5259848 := 18, 4738372 := 19]

  lemma RealCodeKeysMatch()
    ensures |RealAirports| == 20
    ensures forall i :: 0 <= i < 20 ==> CodeKey(RealAirports[i].code) == RealCodeKeys[i]
  {
  }

  lemma RealCodePositionsMatch()
    ensures forall i :: 0 <= i < 20 ==> RealCodeKeys[i] in RealCodePosition && RealCodePosition[RealCodeKeys[i]] == i
  {
  }

  /** The twenty real airports carry twenty different codes: each code's
      packed number leads back to its own position. */
  lemma RealAirportCodesUnique()
    ensures Distinct(Codes(RealAirports))
  {
    RealCodeKeysMatch();
    RealCodePositionsMatch();
    var c := Codes(RealAirports);
    forall i, j | 0 <= i < j < |c|
      ensures c[i] != c[j]
    {
      assert RealCodePosition[CodeKey(c[i])] == i && RealCodePosition[CodeKey(c[j])] == j;
    }
  }

  lemma RealAirportsDistinct()
    ensures Distinct(RealAirports)
  {
    RealAirportCodesUnique();
    CodesDistinctAirportsDistinct(RealAirports);
  }

  lemma CodesDistinctAirportsDistinct(s: seq<AirportRecord>)
    requires Distinct(Codes(s))
    ensures Distinct(s)
  {
    var c := Codes(s);
    forall i, j | 0 <= i < j < |s|
      ensures s[i] != s[j]
    {
      assert c[i] != c[j];
    }
  }

  /** Two airports of a catalogue with distinct codes that share a code
      are the same airport. */
  lemma SameCodeSameAirport(s: seq<AirportRecord>, a: AirportRecord, b: AirportRecord)
    requires Distinct(Codes(s)) && a in s && b in s && a.code == b.code
    ensures a == b
  {
    var c := Codes(s);
    var i :| 0 <= i < |s| && s[i] == a;
    var j :| 0 <= j < |s| && s[j] == b;
    assert c[i] == c[j];
  }

  /** Airports of a catalogue with distinct codes, listed without
      repeats, carry different codes. */
  lemma CodesDiffer(catalogue: seq<AirportRecord>, s: seq<AirportRecord>)
    requires Distinct(Codes(catalogue))
    requires Distinct(s) && forall k :: 0 <= k < |s| ==> s[k] in catalogue
    ensures forall k, l :: 0 <= k < l < |s| ==> s[k].code != s[l].code
  {
    forall k, l | 0 <= k < l < |s|
      ensures s[k].code != s[l].code
    {
      if s[k].code == s[l].code {
        SameCodeSameAirport(catalogue, s[k], s[l]);
      }
    }
  }

  function TakenCodes(existing: seq<AirportRecord>): (r: set<string>)
    ensures forall a :: a in existing ==> a.code in r
  {
    set a | a in existing :: a.code
  }

  /** `min(wanted, offered)` airports sampled from the catalogue airports
      whose code is free. */
  function AddedFrom(catalogue: seq<AirportRecord>, existing: seq<AirportRecord>, wanted: nat, picks: seq<nat>)
    : (r: seq<AirportRecord>)
    requires |picks| == wanted && Distinct(Codes(catalogue))
    ensures var offered := Offered(catalogue, TakenCodes(existing));
            |r| == if wanted < |offered| then wanted else |offered|
    ensures forall k :: 0 <= k < |r| ==>
              r[k] in catalogue && forall a :: a in existing ==> a.code != r[k].code
    ensures forall k, l :: 0 <= k < l < |r| ==> r[k].code != r[l].code
  {
    var offered := Offered(catalogue, TakenCodes(existing));
    CodesDistinctAirportsDistinct(catalogue);
    var added := if wanted < |offered| then wanted else |offered|;
    var drawn := Sample(offered, picks[..added]);
    assert drawn.Ok? && |drawn.value| == added;
    var chosen := drawn.value;
    assert forall k :: 0 <= k < |chosen| ==> chosen[k] in offered;
    CodesDiffer(catalogue, chosen);
    chosen
  }

  /** The real airports `generate_airports_csv` adds: `min(wanted,
      available)` of them, each with a code no stored airport has, and no
      code twice. */
  function AddedAirports(existing: seq<AirportRecord>, wanted: nat, picks: seq<nat>): (r: seq<AirportRecord>)
    requires |picks| == wanted
    ensures var available := AvailableAirports(TakenCodes(existing));
            |r| == if wanted < |available| then wanted else |available|
    ensures forall k :: 0 <= k < |r| ==>
              r[k] in RealAirports && forall a :: a in existing ==> a.code != r[k].code
    ensures forall k, l :: 0 <= k < l < |r| ==> r[k].code != r[l].code
  {
    RealAirportCodesUnique();
    AddedFrom(RealAirports, existing, wanted, picks)
  }

  /** Appending airports whose codes are new and pairwise different keeps
      a list of distinct codes distinct. */
  lemma FreshCodesAppend(existing: seq<AirportRecord>, added: seq<AirportRecord>)
    requires forall k :: 0 <= k < |added| ==> forall a :: a in existing ==> a.code != added[k].code
    requires forall k, l :: 0 <= k < l < |added| ==> added[k].code != added[l].code
    ensures Distinct(Codes(existing)) ==> Distinct(Codes(existing + added))
  {
    if Distinct(Codes(existing)) {
      var r := existing + added;
      var c := Codes(r);
      forall i, j | 0 <= i < j < |c|
        ensures c[i] != c[j]
      {
        if j < |existing| {
          assert r[i] == existing[i] && r[j] == existing[j];
          assert Codes(existing)[i] != Codes(existing)[j];
        } else if i < |existing| {
          assert r[i] == existing[i];
          assert r[i] in existing;
          assert r[j] == added[j - |existing|];
        } else {
          assert r[i] == added[i - |existing|] && r[j] == added[j - |existing|];
        }
      }
    }
  }

  /** The stored airports followed by those `AddedFrom` draws from
      `catalogue`. */
  function ExtendedFrom(catalogue: seq<AirportRecord>, existing: seq<AirportRecord>, wanted: nat, picks: seq<nat>)
    : (r: seq<AirportRecord>)
    requires |picks| == wanted && Distinct(Codes(catalogue))
    ensures |existing| <= |r| && r[..|existing|] == existing
    ensures var offered := Offered(catalogue, TakenCodes(existing));
            |r| - |existing| == if wanted < |offered| then wanted else |offered|
    ensures forall k :: |existing| <= k < |r| ==>
              r[k] in catalogue && forall a :: a in existing ==> a.code != r[k].code
    ensures Distinct(Codes(existing)) ==> Distinct(Codes(r))
  {
    var added := AddedFrom(catalogue, existing, wanted, picks);
    FreshCodesAppend(existing, added);
    assert forall k :: |existing| <= k < |existing + added| ==> (existing + added)[k] == added[k - |existing|];
    existing + added
  }

  /** `generate_airports_csv`: the stored airports are kept as they are,
      followed by `min(wanted, available)` real airports with codes no
      stored airport has; a list whose codes were unique stays so. */
  function NewAirports(existing: seq<AirportRecord>, wanted: nat, picks: seq<nat>): (r: seq<AirportRecord>)
    requires |picks| == wanted
    ensures |existing| <= |r| && r[..|existing|] == existing
    ensures var available := AvailableAirports(TakenCodes(existing));
            |r| - |existing| == if wanted < |available| then wanted else |available|
    ensures forall k :: |existing| <= k < |r| ==>
              r[k] in RealAirports && forall a :: a in existing ==> a.code != r[k].code
    ensures Distinct(Codes(existing)) ==> Distinct(Codes(r))
  {
    RealAirportCodesUnique();
    ExtendedFrom(RealAirports, existing, wanted, picks)
  }

  // ---------------------------------------------------------------- flights

  function DigitChar(d: int): (c: char)
    requires 0 <= d < 10
    ensures '0' <= c <= '9' && c as int - '0' as int == d
  {
    "0123456789"[d]
  }

  /** `f"FL{n}"` for a three-digit `n`. */
  function FlightNumber(n: int): (r: string)
    requires 100 <= n <= 999
    ensures |r| == 5 && r[..2] == "FL" && forall k :: 2 <= k < 5 ==> '0' <= r[k] <= '9'
    ensures DigitsValue(r[2..]) == n
  {
    var hundreds := n / 100;
    var tens := (n - hundreds * 100) / 10;
    var units := n - hundreds * 100 - tens * 10;
    "FL" + [DigitChar(hundreds), DigitChar(tens), DigitChar(units)]
  }

  /** The number three decimal digits spell. */
  function DigitsValue(ds: string): int
    requires |ds| == 3
  {
    (ds[0] as int - '0' as int) * 100 + (ds[1] as int - '0' as int) * 10 + (ds[2] as int - '0' as int)
  }

  /** Different three-digit numbers give different flight numbers, so
      there are exactly 900 of them. */
  lemma FlightNumberInjective(m: int, n: int)
    requires 100 <= m <= 999 && 100 <= n <= 999
    ensures FlightNumber(m) == FlightNumber(n) <==> m == n
  {
    if FlightNumber(m) == FlightNumber(n) {
      assert FlightNumber(m)[2..] == FlightNumber(n)[2..];
    }
  }

  /** The number a flight-number draw stands for: `f"FL{randint(100, 999)}"`. */
  function TryNumber(t: nat): (r: string)
    ensures |r| == 5 && r[..2] == "FL"
  {
    FlightNumber(100 + t % 900)
  }

  /** The rejection loop for a flight number: the first try whose number is
      not yet used, together with how many tries it took. */
  function FreshNumber(used: set<string>, tries: seq<nat>): (r: Result<(string, nat), GenError>)
    ensures r.Err? ==> r.error == DrawsExhausted
    ensures r.Err? <==> forall k :: 0 <= k < |tries| ==> TryNumber(tries[k]) in used
    ensures r.Ok? ==>
              && r.value.1 < |tries| && r.value.0 == TryNumber(tries[r.value.1]) && r.value.0 !in used
              && forall j :: 0 <= j < r.value.1 ==> TryNumber(tries[j]) in used
  {
    var unused := (t: nat) => (TryNumber(t) !in used);
    assert forall k :: 0 <= k < |tries| ==> (unused(tries[k]) <==> TryNumber(tries[k]) !in used);
    match FindFirst(tries, unused)
    case None => Err(DrawsExhausted)
    case Some(k) => Ok((TryNumber(tries[k]), k))
  }

  /** The draws for one new flight. */
  datatype FlightDraw = FlightDraw(numberTries: seq<nat>, origin: nat, destination: nat,
                                   departure: nat, hours: nat, aircraft: nat, capacity: nat)

  /** Departures are drawn between now and thirty days on. */
  const DepartureWindow: int := 30 * 24 * 3600

  /** What a drafted flight satisfies: a fresh `FL` number, two airports of
      the list with different codes, a departure in the window, one to four
      whole hours of flight, a known aircraft and 100 to 300 seats. */
  ghost predicate WellDrafted(f: FlightRecord, airports: seq<AirportRecord>, now: int) {
    && |f.number| == 5 && f.number[..2] == "FL"
    && f.originCode in Codes(airports) && f.destinationCode in Codes(airports)
    && f.originCode != f.destinationCode
    && now <= f.departure <= now + DepartureWindow
    && (f.arrival - f.departure) % 3600 == 0 && 3600 <= f.arrival - f.departure <= 4 * 3600
    && f.aircraft in AircraftModels
    && 100 <= f.seatCapacity <= 300
  }

  lemma CodeListed(airports: seq<AirportRecord>, a: AirportRecord)
    requires a in airports
    ensures a.code in Codes(airports)
  {
    var i :| 0 <= i < |airports| && airports[i] == a;
    assert Codes(airports)[i] == a.code;
  }

  lemma WholeHours(hours: int)
    requires 1 <= hours <= 4
    ensures (hours * 3600) % 3600 == 0 && 3600 <= hours * 3600 <= 4 * 3600
  {
  }

  /** The timing, aircraft and size of a flight between two chosen
      airports: a departure in the window, one to four whole hours aloft, a
      known aircraft and 100 to 300 seats. */
  function Schedule(number: string, originCode: string, destinationCode: string, d: FlightDraw, now: int)
    : (f: FlightRecord)
    ensures f.number == number && f.originCode == originCode && f.destinationCode == destinationCode
    ensures now <= f.departure <= now + DepartureWindow
    ensures (f.arrival - f.departure) % 3600 == 0 && 3600 <= f.arrival - f.departure <= 4 * 3600
    ensures f.aircraft in AircraftModels && 100 <= f.seatCapacity <= 300
  {
    var departure := now + d.departure % (DepartureWindow + 1);
    var hours := RandInt(1, 4, d.hours).value;
    var aircraft := Choice(AircraftModels, d.aircraft).value;
    var capacity := RandInt(100, 300, d.capacity).value;
    WholeHours(hours);
    assert (departure + hours * 3600) - departure == hours * 3600;
    FlightRecord(number, originCode, destinationCode, departure, departure + hours * 3600, aircraft, capacity)
  }

  /** The destination drawn from the airports whose code differs from the
      origin's; `IndexError` when there is none. */
  function Destination(airports: seq<AirportRecord>, origin: AirportRecord, pick: nat)
    : (r: Result<AirportRecord, GenError>)
    ensures r.Ok? ==> r.value in airports && r.value.code != origin.code
    ensures r.Err? <==> forall a :: a in airports ==> a.code == origin.code
    ensures r.Err? ==> r.error == IndexError
  {
    var others := Keep(airports, (a: AirportRecord) => a.code != origin.code);
    Choice(others, pick)
  }

  /** Some try of the rejection loop finds a number not yet used. */
  ghost predicate NumberDrawable(used: set<string>, tries: seq<nat>) {
    exists k :: 0 <= k < |tries| && TryNumber(tries[k]) !in used
  }

  /** The list is not empty, and some airport of it has a code other than
      that of the origin `originPick` selects. */
  ghost predicate RouteDrawable(airports: seq<AirportRecord>, originPick: nat) {
    |airports| > 0 && exists a :: a in airports && a.code != airports[originPick % |airports|].code
  }

  /** A flight numbered `number` between two drawn airports; `IndexError`
      exactly when no destination is left for the drawn origin. */
  function FlightBetween(airports: seq<AirportRecord>, number: string, d: FlightDraw, now: int)
    : (r: Result<FlightRecord, GenError>)
    requires |number| == 5 && number[..2] == "FL"
    ensures r.Ok? <==> RouteDrawable(airports, d.origin)
    ensures r.Err? ==> r.error == IndexError
    ensures r.Ok? ==> r.value.number == number && WellDrafted(r.value, airports, now)
  {
    match Choice(airports, d.origin)
    case Err(e) => Err(e)
    case Ok(origin) =>
      match Destination(airports, origin, d.destination)
      case Err(e) => Err(e)
      case Ok(destination) =>
        CodeListed(airports, origin);
        CodeListed(airports, destination);
        Ok(Schedule(number, origin.code, destination.code, d, now))
  }

  /** The body of the generator's flight loop for one flight: it succeeds
      exactly when a fresh number is found and the drawn origin leaves a
      destination, and otherwise reports which of the two failed. */
  function DraftFlight(airports: seq<AirportRecord>, used: set<string>, d: FlightDraw, now: int)
    : (r: Result<FlightRecord, GenError>)
    ensures r.Ok? <==> NumberDrawable(used, d.numberTries) && RouteDrawable(airports, d.origin)
    ensures !NumberDrawable(used, d.numberTries) ==> r == Err(DrawsExhausted)
    ensures NumberDrawable(used, d.numberTries) && !RouteDrawable(airports, d.origin) ==> r == Err(IndexError)
    ensures r.Ok? ==> r.value.number !in used && WellDrafted(r.value, airports, now)
  {
    match FreshNumber(used, d.numberTries)
    case Err(e) => Err(e)
    case Ok(found) => FlightBetween(airports, found.0, d, now)
  }

  /** What the flight loop keeps: every drafted flight is well drafted,
      its number is recorded as used and was not stored before, and no
      number repeats. */
  ghost predicate DraftedSoFar(airports: seq<AirportRecord>, existing: set<string>, used: set<string>,
                               flights: seq<FlightRecord>, now: int) {
    && existing <= used
    && (forall k :: 0 <= k < |flights| ==> flights[k].number in used && flights[k].number !in existing)
    && (forall k :: 0 <= k < |flights| ==> WellDrafted(flights[k], airports, now))
    && (forall k, l :: 0 <= k < l < |flights| ==> flights[k].number != flights[l].number)
  }

  lemma DraftedExtends(airports: seq<AirportRecord>, existing: set<string>, used: set<string>,
                       flights: seq<FlightRecord>, f: FlightRecord, now: int)
    requires DraftedSoFar(airports, existing, used, flights, now)
    requires f.number !in used && WellDrafted(f, airports, now)
    ensures DraftedSoFar(airports, existing, used + {f.number}, flights + [f], now)
  {
    var longer := flights + [f];
    assert forall k :: 0 <= k < |flights| ==> longer[k] == flights[k];
    assert longer[|flights|] == f;
  }

  /** The numbers of a list of flights. */
  function Numbers(flights: seq<FlightRecord>): (r: set<string>)
    ensures forall k :: 0 <= k < |flights| ==> flights[k].number in r
    decreases |flights|
  {
    if |flights| == 0 then {}
    else Numbers(flights[..|flights| - 1]) + {flights[|flights| - 1].number}
  }

  /** Draft `k` of the loop, given the flights drafted before it: drafted
      against the stored numbers and theirs, it yields `flights[k]`. */
  ghost predicate DraftsInTurn(airports: seq<AirportRecord>, existing: set<string>, draws: seq<FlightDraw>,
                               flights: seq<FlightRecord>, now: int) {
    && |flights| <= |draws|
    && forall k: nat :: k < |flights| ==> DraftedInTurn(airports, existing, draws, flights, k, now)
  }

  /** A draft of the loop: `draws[k]`, drafted against the stored numbers
      and those of `flights[..k]`, yields `flights[k]`. */
  ghost predicate DraftedInTurn(airports: seq<AirportRecord>, existing: set<string>, draws: seq<FlightDraw>,
                                flights: seq<FlightRecord>, k: nat, now: int)
    requires k < |flights| && k < |draws|
  {
    DraftFlight(airports, existing + Numbers(flights[..k]), draws[k], now) == Ok(flights[k])
  }

  lemma DraftedInTurnKept(airports: seq<AirportRecord>, existing: set<string>, draws: seq<FlightDraw>,
                          flights: seq<FlightRecord>, f: FlightRecord, k: nat, now: int)
    requires k < |flights| < |draws|
    requires DraftedInTurn(airports, existing, draws, flights, k, now)
    ensures DraftedInTurn(airports, existing, draws, flights + [f], k, now)
  {
    var longer := flights + [f];
    assert longer[..k] == flights[..k] && longer[k] == flights[k];
  }

  lemma DraftsInTurnExtends(airports: seq<AirportRecord>, existing: set<string>, draws: seq<FlightDraw>,
                            flights: seq<FlightRecord>, f: FlightRecord, now: int)
    requires DraftsInTurn(airports, existing, draws, flights, now) && |flights| < |draws|
    requires DraftFlight(airports, existing + Numbers(flights), draws[|flights|], now) == Ok(f)
    ensures DraftsInTurn(airports, existing, draws, flights + [f], now)
  {
    var longer := flights + [f];
    forall k: nat | k < |longer|
      ensures DraftedInTurn(airports, existing, draws, longer, k, now)
    {
      if k < |flights| {
        DraftedInTurnKept(airports, existing, draws, flights, f, k, now);
      } else {
        DraftedInTurnLast(airports, existing, draws, flights, f, now);
      }
    }
  }

  lemma DraftedInTurnLast(airports: seq<AirportRecord>, existing: set<string>, draws: seq<FlightDraw>,
                          flights: seq<FlightRecord>, f: FlightRecord, now: int)
    requires |flights| < |draws|
    requires DraftFlight(airports, existing + Numbers(flights), draws[|flights|], now) == Ok(f)
    ensures DraftedInTurn(airports, existing, draws, flights + [f], |flights|, now)
  {
    var longer := flights + [f];
    assert longer[..|flights|] == flights && longer[|flights|] == f;
  }

  /** `generate_flights_csv`: the draw records are drafted in turn, each
      against the stored numbers and those drafted before it.  The loop
      succeeds exactly when every draft does, and otherwise reports the
      error of the first draft that fails. */
  method NewFlights(airports: seq<AirportRecord>, existing: set<string>, draws: seq<FlightDraw>, now: int)
    returns (r: Result<seq<FlightRecord>, GenError>)
    ensures r.Ok? ==> |r.value| == |draws| && DraftsInTurn(airports, existing, draws, r.value, now)
    ensures r.Err? ==> exists done: seq<FlightRecord> ::
              && |done| < |draws| && DraftsInTurn(airports, existing, draws, done, now)
              && DraftFlight(airports, existing + Numbers(done), draws[|done|], now) == Err(r.error)
    ensures r.Ok? ==> |r.value| == |draws|
    ensures r.Ok? ==> forall k :: 0 <= k < |r.value| ==>
                        r.value[k].number !in existing && WellDrafted(r.value[k], airports, now)
    ensures r.Ok? ==> forall k, l :: 0 <= k < l < |r.value| ==> r.value[k].number != r.value[l].number
    ensures |airports| == 0 && r.Err? ==> r.error in {DrawsExhausted, IndexError}
  {
    var used := existing;
    var flights: seq<FlightRecord> := [];
    var i := 0;
    while i < |draws|
      invariant 0 <= i <= |draws| && |flights| == i
      invariant DraftedSoFar(airports, existing, used, flights, now)
      invariant DraftsInTurn(airports, existing, draws, flights, now) && used == existing + Numbers(flights)
    {
      var drafted := DraftFlight(airports, used, draws[i], now);
      if drafted.Err? {
        return Err(drafted.error);
      }
      var f := drafted.value;
      DraftedExtends(airports, existing, used, flights, f, now);
      DraftsInTurnExtends(airports, existing, draws, flights, f, now);
      assert (flights + [f])[..|flights|] == flights;
      flights := flights + [f];
      used := used + {f.number};
      i := i + 1;
    }
    return Ok(flights);
  }

  // ---------------------------------------------------------------- fares

  function Sum(s: seq<int>): (r: int)
    decreases |s|
  {
    if |s| == 0 then 0 else Sum(s[..|s| - 1]) + s[|s| - 1]
  }

  /** Draws all lie in `lo..hi` and `n` of them sum to at most `n * hi`. */
  lemma {:induction false} SumAtMost(s: seq<int>, hi: int)
    requires forall k :: 0 <= k < |s| ==> s[k] <= hi
    ensures Sum(s) <= |s| * hi
    decreases |s|
  {
    if |s| > 0 {
      SumAtMost(s[..|s| - 1], hi);
    }
  }

  lemma SumAppend(s: seq<int>, x: int)
    ensures Sum(s + [x]) == Sum(s) + x
  {
    assert (s + [x])[..|s|] == s;
  }

  /** The `n - 1` limits drawn from `randint(10, cap // n)`. */
  function DrawLimits(cap: int, n: nat, picks: seq<nat>): (r: Result<seq<int>, GenError>)
    requires 1 <= n && |picks| >= n - 1
    ensures r.Err? <==> n > 1 && cap / n < 10
    ensures r.Ok? ==> |r.value| == n - 1 && forall k :: 0 <= k < n - 1 ==>
                        10 <= r.value[k] <= cap / n && r.value[k] == 10 + picks[k] % (cap / n - 9)
  {
    if n > 1 && cap / n < 10 then Err(EmptyRange)
    else Ok(seq(n - 1, (k: int) requires 0 <= k < n - 1 => RandInt(10, cap / n, picks[k]).value))
  }

  /** The seat split as written: draw `n - 1` limits, give the last fare the
      rest, and if that rest is under ten take the shortfall from the
      previous fare (indexing the empty list when there is none). */
  function SeatLimits(cap: int, n: nat, picks: seq<nat>): (r: Result<seq<int>, GenError>)
    requires 1 <= n && |picks| >= n - 1
  {
    match DrawLimits(cap, n, picks)
    case Err(e) => Err(e)
    case Ok(drawn) =>
      var last := cap - Sum(drawn);
      if last < 10 then
        if |drawn| == 0 then Err(IndexError)
        else Ok(drawn[..|drawn| - 1] + [drawn[|drawn| - 1] + last - 10] + [10])
      else Ok(drawn + [last])
  }

  /** `n - 1` draws of at most `cap // n` leave at least `cap // n` seats
      for the last fare. */
  lemma DrawsLeaveRoom(cap: int, n: nat, drawn: seq<int>)
    requires n > 1 && |drawn| == n - 1
    requires forall k :: 0 <= k < |drawn| ==> drawn[k] <= cap / n
    ensures cap - Sum(drawn) >= cap / n
  {
    var q := cap / n;
    SumAtMost(drawn, q);
    assert n * q + cap % n == cap;
    assert (n - 1) * q + q == n * q;
  }

  /** The split fails exactly when `randint` gets an empty range or a single
      fare has fewer than ten seats; otherwise it has one limit per fare,
      the limits add up to the capacity, every limit is at least ten, and
      the drawn limits are kept as drawn: the redistribution never fires. */
  lemma {:induction false} SeatLimitsPartition(cap: int, n: nat, picks: seq<nat>)
    requires 1 <= n && |picks| >= n - 1
    ensures var r := SeatLimits(cap, n, picks);
            && (r.Err? <==> (n > 1 && cap / n < 10) || (n == 1 && cap < 10))
            && (n == 1 && cap < 10 ==> r == Err(IndexError))
            && (r.Ok? ==>
                  && |r.value| == n && Sum(r.value) == cap
                  && (forall k :: 0 <= k < n ==> r.value[k] >= 10)
                  && r.value[..n - 1] == DrawLimits(cap, n, picks).value)
  {
    var d := DrawLimits(cap, n, picks);
    if d.Ok? {
      var drawn := d.value;
      if n > 1 {
        DrawsLeaveRoom(cap, n, drawn);
      }
      var last := cap - Sum(drawn);
      SumAppend(drawn, last);
      assert (drawn + [last])[..n - 1] == drawn;
    }
  }

  /** `random.sample(fare_names * 2, n)` as written: the list is doubled, so
      two positions can carry the same name. */
  function FareNamesAsWritten(n: nat, picks: seq<nat>): (r: Result<seq<string>, GenError>)
    requires |picks| == n
    ensures r.Err? <==> n > 2 * |FareNames|
    ensures r.Ok? ==> |r.value| == n && forall k :: 0 <= k < n ==> r.value[k] in FareNames
    ensures r.Ok? ==> multiset(r.value) <= multiset(FareNames + FareNames)
  {
    var pool := FareNames + FareNames;
    assert forall x :: x in pool ==> x in FareNames;
    SampleWithoutReplacement(pool, picks);
    Sample(pool, picks)
  }

  /** One step of the sampling loop: the first draw picks from the whole
      pool, the rest from what it leaves. */
  lemma SampleStep<T>(xs: seq<T>, picks: seq<nat>)
    requires 1 <= |picks| <= |xs|
    ensures var i := picks[0] % |xs|;
            Sample(xs, picks) == Ok([xs[i]] + Sample(Without(xs, i), picks[1..]).value)
  {
  }

  lemma SampleOne<T>(xs: seq<T>, pick: nat)
    requires |xs| >= 1
    ensures Sample(xs, [pick]) == Ok([xs[pick % |xs|]])
  {
    var i := pick % |xs|;
    var picks := [pick];
    assert picks[0] == pick && picks[1..] == [];
    var rest := Sample(Without(xs, i), picks[1..]);
    assert rest == Ok([]);
    assert [xs[i]] + rest.value == [xs[i]];
    assert Sample(xs, picks) == Ok([xs[i]]);
  }

  lemma SmallMod(a: int, b: int)
    requires 0 <= a < b
    ensures a % b == a
  {
  }

  /** Sampling two from a doubled list can draw the first element twice:
      the first draw takes its first copy, and the second draw, at the
      position the second copy has moved to, takes the other. */
  lemma DoubledPoolRepeats<T>(xs: seq<T>)
    requires |xs| >= 1
    ensures Sample(xs + xs, [0, |xs| - 1]) == Ok([xs[0], xs[0]])
  {
    DoubledPoolDraws(xs, xs + xs, [0, |xs| - 1]);
  }

  lemma DoubledPoolDraws<T>(xs: seq<T>, pool: seq<T>, picks: seq<nat>)
    requires |xs| >= 1 && pool == xs + xs && picks == [0, |xs| - 1]
    ensures Sample(pool, picks) == Ok([xs[0], xs[0]])
  {
    assert picks[1..] == [|xs| - 1];
    SmallMod(0, |pool|);
    var once := Without(pool, 0);
    WithoutShifts(pool, 0);
    SmallMod(|xs| - 1, |once|);
    assert once[|xs| - 1] == pool[|xs|] == xs[0];
    SampleOne(once, |xs| - 1);
    SampleStep(pool, picks);
    assert [xs[0]] + [xs[0]] == [xs[0], xs[0]];
  }

  /** Drawing two names from the doubled list can give "Economy" twice. */
  lemma AsWrittenFareNamesRepeat()
    ensures FareNamesAsWritten(2, [0, 2]) == Ok(["Economy", "Economy"])
  {
    DoubledPoolRepeats(FareNames);
  }

  /** Fare names drawn from the plain list: one to three fares get
      pairwise different names. */
  function FareNamesFor(n: nat, picks: seq<nat>): (r: Result<seq<string>, GenError>)
    requires |picks| == n
    ensures r.Err? <==> n > |FareNames|
    ensures r.Ok? ==> |r.value| == n && Distinct(r.value) &&
                      forall k :: 0 <= k < n ==> r.value[k] in FareNames
  {
    Sample(FareNames, picks)
  }

  /** The draws for one flight's fares, with enough entries for three fares. */
  datatype FareDraw = FareDraw(count: nat, limits: seq<nat>, names: seq<nat>, prices: seq<real>,
                               currencies: seq<nat>)

  predicate FareDrawLongEnough(d: FareDraw) {
    |d.limits| >= 2 && |d.names| >= 3 && |d.prices| >= 3 && |d.currencies| >= 3
  }

  /** The limits of a list of fares, in order. */
  function LimitsOf(fares: seq<FareRecord>): (r: seq<int>)
    ensures |r| == |fares| && forall k :: 0 <= k < |r| ==> r[k] == fares[k].seatLimit
  {
    seq(|fares|, (k: int) requires 0 <= k < |fares| => fares[k].seatLimit)
  }

  /** A fare row as the generator writes it for flight `number`. */
  predicate FareFits(f: FareRecord, number: string) {
    && f.flightNumber == number && f.seatsSold == 0 && f.seatLimit >= 10
    && f.baseCurrency in Currencies && f.name in FareNames
  }

  /** The rows written for one flight: fare `k` gets name `k`, price `k`,
      a drawn currency and limit `k`, and nothing sold. */
  function FareRows(number: string, names: seq<string>, prices: seq<real>, currencies: seq<nat>, limits: seq<int>)
    : (r: seq<FareRecord>)
    requires |names| == |limits| && |prices| >= |limits| && |currencies| >= |limits|
    ensures LimitsOf(r) == limits
    ensures forall k :: 0 <= k < |r| ==>
              && r[k].flightNumber == number && r[k].name == names[k] && r[k].basePrice == prices[k]
              && r[k].baseCurrency in Currencies && r[k].seatsSold == 0
  {
    var r := seq(|limits|, (k: int) requires 0 <= k < |limits| =>
      FareRecord(number, names[k], prices[k], Choice(Currencies, currencies[k]).value, limits[k], 0));
    assert LimitsOf(r) == limits;
    r
  }

  /** The rows for a split into `n` limits of at least ten, named from the
      plain list. */
  function FaresOfSplit(number: string, n: nat, limits: seq<int>, d: FareDraw): (r: seq<FareRecord>)
    requires 1 <= n <= 3 && |limits| == n && FareDrawLongEnough(d)
    requires forall k :: 0 <= k < n ==> limits[k] >= 10
    ensures LimitsOf(r) == limits
    ensures forall k :: 0 <= k < |r| ==> FareFits(r[k], number)
    ensures forall k, l :: 0 <= k < l < |r| ==> r[k].name != r[l].name
  {
    var names := FareNamesFor(n, d.names[..n]).value;
    var fares := FareRows(number, names, d.prices, d.currencies, limits);
    assert forall k :: 0 <= k < n ==> fares[k].seatLimit == LimitsOf(fares)[k] == limits[k];
    fares
  }

  lemma RoomForFares(cap: int, n: int)
    requires 1 <= n <= 3
    ensures 100 <= cap ==> cap / n >= 10 && cap >= 10
  {
  }

  /** The seat split for one to three fares: it succeeds on a flight of at
      least 100 seats, and a successful split is a partition of the
      capacity into limits of at least ten. */
  lemma SplitFits(cap: int, n: nat, picks: seq<nat>)
    requires 1 <= n <= 3 && |picks| >= n - 1
    ensures 100 <= cap ==> SeatLimits(cap, n, picks).Ok?
    ensures var r := SeatLimits(cap, n, picks);
            r.Ok? ==> |r.value| == n && Sum(r.value) == cap && forall k :: 0 <= k < n ==> r.value[k] >= 10
  {
    RoomForFares(cap, n);
    SeatLimitsPartition(cap, n, picks);
  }

  /** `generate_flight_fares_csv` for one flight, with the names drawn from
      the plain list.  A flight as drafted (100 to 300 seats) always gets
      one to three fares, with different names, seat limits of at least
      ten adding up to its capacity, and nothing sold. */
  function FaresFor(flight: FlightRecord, d: FareDraw): (r: Result<seq<FareRecord>, GenError>)
    requires FareDrawLongEnough(d)
    ensures 100 <= flight.seatCapacity ==> r.Ok?
    ensures r.Ok? ==> 1 <= |r.value| <= 3 && Sum(LimitsOf(r.value)) == flight.seatCapacity
    ensures r.Ok? ==> forall k :: 0 <= k < |r.value| ==> FareFits(r.value[k], flight.number)
    ensures r.Ok? ==> forall k, l :: 0 <= k < l < |r.value| ==> r.value[k].name != r.value[l].name
  {
    var n := RandInt(1, 3, d.count).value;
    SplitFits(flight.seatCapacity, n, d.limits);
    var split := SeatLimits(flight.seatCapacity, n, d.limits);
    if split.Err? then Err(split.error)
    else Ok(FaresOfSplit(flight.number, n, split.value, d))
  }
}

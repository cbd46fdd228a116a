/**
 * Public Transit's assertions: read-only checks over the station registry that
 * fail with a message followed by a numbered listing of every station known to
 * the registry and its phase. Only the state these checks read is modelled:
 * each station's identity, class and phase, each facility's phase, and the
 * registry's active station and list of all stations.
 */
module TransitAsserts {
  import opened Wrappers
  import opened Strings

  /** The lifecycle phase of a station or facility. */
  datatype Phase = New | TransitioningTo | Active | TransitioningFrom | Finished

  /** `ConditionalState.phaseToString` and `phaseToShortString`, which are not part of this model. */
  datatype PhaseNames = PhaseNames(long: Phase -> string, short: Phase -> string)

  /** A Java class, by its name. */
  type ClassName = string

  /** A TransitStation; object identity is reference identity. */
  class TransitStation {
    var phase: Phase
    /** The station's runtime class, and every class it extends. */
    const className: ClassName
    const superclasses: set<ClassName>
    /** What `toString()` returns. */
    const description: string

    constructor (className: ClassName, superclasses: set<ClassName>, description: string, phase: Phase)
      ensures this.className == className && this.superclasses == superclasses
      ensures this.description == description && this.phase == phase
    {
      this.className := className;
      this.superclasses := superclasses;
      this.description := description;
      this.phase := phase;
    }

    /** `type.isInstance(this)`. */
    predicate IsInstanceOf(type_: ClassName)
    {
      type_ == className || type_ in superclasses
    }
  }

  /** A StationFacility. */
  class StationFacility {
    var phase: Phase
    /** What `toString()` returns. */
    const description: string

    constructor (description: string, phase: Phase)
      ensures this.description == description && this.phase == phase
    {
      this.description := description;
      this.phase := phase;
    }
  }

  /** TrafficControl's registry: the active station, if any, and all stations in order of creation. */
  class TrafficControl {
    var activeStation: TransitStation?
    var allStations: seq<TransitStation>

    constructor ()
      ensures activeStation == null && allStations == []
    {
      activeStation := null;
      allStations := [];
    }
  }

  /** `%s` of a station that may be null. */
  function Describe(station: TransitStation?): string
  {
    if station == null then "null" else station.description
  }

  /** `%s` of a Class object. */
  function ClassText(type_: ClassName): string
  {
    "class " + type_
  }

  function Digit(n: nat): (c: char)
    requires n < 10
    ensures '0' <= c <= '9'
  {
    ('0' as int + n) as char
  }

  /** The number a string of decimal digits denotes, most significant digit first. */
  function DigitsValue(s: string): int
  {
    if s == [] then 0 else DigitsValue(s[..|s| - 1]) * 10 + (s[|s| - 1] as int - '0' as int)
  }

  /** `%d` of a non-negative number: its decimal digits, without leading zeros. */
  function DecimalString(n: nat): (s: string)
    ensures |s| > 0
    ensures forall k :: 0 <= k < |s| ==> '0' <= s[k] <= '9'
    ensures DigitsValue(s) == n
    ensures s[0] != '0' || |s| == 1
  {
    if n < 10 then [Digit(n)]
    else
      var s := DecimalString(n / 10) + [Digit(n % 10)];
      assert s[..|s| - 1] == DecimalString(n / 10);
      s
  }

  /** The listing line for one station: `  [index] (shortPhase) station`. */
  function StationLine(index: nat, station: TransitStation, names: PhaseNames): string
    reads station
  {
    "  [" + DecimalString(index) + "] (" + names.short(station.phase) + ") " + station.description + "\n"
  }

  /** The lines for `stations`, numbered from `first` on. */
  function StationLines(stations: seq<TransitStation>, first: nat, names: PhaseNames): string
    reads stations
  {
    if stations == [] then ""
    else
      var n := |stations| - 1;
      StationLines(stations[..n], first, names) + StationLine(first + n, stations[n], names)
  }

  /** The text of a failure: the message, a newline and the listing of all registered stations. */
  function Report(tc: TrafficControl, names: PhaseNames, message: string): string
    reads tc, tc.allStations
  {
    message + "\n" + StationLines(tc.allStations, 1, names)
  }

  /** `stationListToString(allStations)`. */
  method StationListToString(allStations: seq<TransitStation>, names: PhaseNames) returns (s: string)
    ensures s == StationLines(allStations, 1, names)
  {
    var builder := "";
    var i := 1;
    for j := 0 to |allStations|
      invariant i == j + 1
      invariant builder == StationLines(allStations[..j], 1, names)
    {
      var station := allStations[j];
      assert allStations[..j + 1][..j] == allStations[..j];
      builder := builder + StationLine(i, station, names);
      i := i + 1;
    }
    assert allStations[..|allStations|] == allStations;
    s := builder;
  }

  /** `raiseAssertion(message)`, with the Java assertion taken as always enabled. */
  method RaiseAssertion(tc: TrafficControl, names: PhaseNames, message: string) returns (v: Outcome<string>)
    ensures v == Fail(Report(tc, names, message))
  {
    var allStations := tc.allStations;
    var listing := StationListToString(allStations, names);
    v := Fail(message + "\n" + listing);
  }

  function WrongDestinationMessage(expected: TransitStation, active: TransitStation?): string
  {
    "Expected final destination to be " + Describe(expected) + ", but was " + Describe(active)
  }

  function InactiveStationMessage(expected: TransitStation, phase: Phase, names: PhaseNames): string
  {
    "Station " + Describe(expected) + " expected to be the final one and ACTIVE, but it is " + names.long(phase)
  }

  function InactiveFacilityMessage(facility: StationFacility, phase: Phase, names: PhaseNames): string
  {
    "Facility " + facility.description + " expected to be ACTIVE at the end, but it is in " + names.long(phase)
  }

  function WrongTypeMessage(type_: ClassName, situation: string, active: TransitStation?): string
  {
    "Expected current station to be of type <" + ClassText(type_) + "> at <" + situation
      + ">, but was actually of type <" + (if active == null then "null" else ClassText(active.className)) + ">"
  }

  /** The journey ended at `expected` itself, which is ACTIVE, and so are all of `facilities`. */
  ghost predicate AtFinalDestination(tc: TrafficControl, expected: TransitStation, facilities: seq<StationFacility>)
    reads tc, expected, facilities
  {
    && tc.activeStation == expected
    && expected.phase == Active
    && forall k :: 0 <= k < |facilities| ==> facilities[k].phase == Active
  }

  /** `facilities[k]` is the first facility that is not ACTIVE. */
  ghost predicate FirstInactive(facilities: seq<StationFacility>, k: int)
    reads facilities
  {
    && 0 <= k < |facilities|
    && facilities[k].phase != Active
    && forall j :: 0 <= j < k ==> facilities[j].phase == Active
  }

  /**
   * `assertFinalDestination(expected, facilities...)`: passes exactly when the
   * journey ended at `expected` and it and every facility are ACTIVE; otherwise it
   * fails with the message of the first check that does not hold.
   */
  method AssertFinalDestination(tc: TrafficControl, names: PhaseNames, expected: TransitStation, facilities: seq<StationFacility>)
    returns (v: Outcome<string>)
    ensures v == Pass <==> AtFinalDestination(tc, expected, facilities)
    ensures tc.activeStation != expected ==>
      v == Fail(Report(tc, names, WrongDestinationMessage(expected, tc.activeStation)))
    ensures tc.activeStation == expected && expected.phase != Active ==>
      v == Fail(Report(tc, names, InactiveStationMessage(expected, expected.phase, names)))
    ensures tc.activeStation == expected && expected.phase == Active ==>
      forall k :: FirstInactive(facilities, k) ==>
        v == Fail(Report(tc, names, InactiveFacilityMessage(facilities[k], facilities[k].phase, names)))
  {
    var activeStation := tc.activeStation;
    if activeStation != expected {
      v := RaiseAssertion(tc, names, WrongDestinationMessage(expected, activeStation));
      return;
    }
    var phase := expected.phase;
    if phase != Active {
      v := RaiseAssertion(tc, names, InactiveStationMessage(expected, phase, names));
      return;
    }
    for i := 0 to |facilities|
      invariant forall j :: 0 <= j < i ==> facilities[j].phase == Active
    {
      phase := facilities[i].phase;
      if phase != Active {
        assert FirstInactive(facilities, i);
        v := RaiseAssertion(tc, names, InactiveFacilityMessage(facilities[i], phase, names));
        return;
      }
    }
    v := Pass;
  }

  /**
   * `assertCurrentStationType(type, situation, allowNull)`: fails exactly when
   * there is no active station and that is not allowed, or the active station is
   * not an instance of `type_`.
   */
  method AssertCurrentStationType(tc: TrafficControl, names: PhaseNames, type_: ClassName, situation: string, allowNull: bool)
    returns (v: Outcome<string>)
    ensures v != Pass <==>
      (tc.activeStation == null && !allowNull) || (tc.activeStation != null && !tc.activeStation.IsInstanceOf(type_))
    ensures tc.activeStation == null && allowNull ==> v == Pass
    ensures v != Pass ==> v == Fail(Report(tc, names, WrongTypeMessage(type_, situation, tc.activeStation)))
  {
    var activeStation := tc.activeStation;
    if (activeStation == null && !allowNull) || (activeStation != null && !activeStation.IsInstanceOf(type_)) {
      v := RaiseAssertion(tc, names, WrongTypeMessage(type_, situation, activeStation));
    } else {
      v := Pass;
    }
  }

  /**
   * A journey that returned to a fresh instance of the original station's class
   * passes the type check but not the final-destination check for the original.
   */
  method SameTypeIsNotSameInstance(tc: TrafficControl, names: PhaseNames, original: TransitStation, current: TransitStation)
    returns (typeCheck: Outcome<string>, destinationCheck: Outcome<string>)
    requires tc.activeStation == current && current != original
    requires current.className == original.className
    ensures typeCheck == Pass && destinationCheck != Pass
  {
    typeCheck := AssertCurrentStationType(tc, names, original.className, "return", false);
    destinationCheck := AssertFinalDestination(tc, names, original, []);
  }

  /** Adding one station at the end adds its line, numbered after the others. */
  lemma StationLinesSnoc(s: seq<TransitStation>, x: TransitStation, first: nat, names: PhaseNames)
    ensures StationLines(s + [x], first, names) == StationLines(s, first, names) + StationLine(first + |s|, x, names)
  {
    assert (s + [x])[..|s|] == s;
  }

  /** The listing of `a + b` is that of `a` followed by that of `b`, numbered on from where `a` stopped. */
  lemma {:induction false} StationLinesAppend(a: seq<TransitStation>, b: seq<TransitStation>, first: nat, names: PhaseNames)
    decreases |b|
    ensures StationLines(a + b, first, names) == StationLines(a, first, names) + StationLines(b, first + |a|, names)
  {
    if b == [] {
      assert a + b == a;
    } else {
      var n := |b| - 1;
      var init, x := b[..n], b[n];
      var line := StationLine(first + |a| + n, x, names);
      assert b == init + [x];
      assert a + b == (a + init) + [x];
      calc {
        StationLines(a + b, first, names);
        { StationLinesSnoc(a + init, x, first, names); }
        StationLines(a + init, first, names) + line;
        { StationLinesAppend(a, init, first, names); }
        StationLines(a, first, names) + StationLines(init, first + |a|, names) + line;
        { StationLinesSnoc(init, x, first + |a|, names); }
        StationLines(a, first, names) + StationLines(b, first + |a|, names);
      }
    }
  }

  /** The `k`-th registered station (from 0) is listed, in registry order, on the line numbered `first + k`. */
  lemma StationListedAt(stations: seq<TransitStation>, first: nat, names: PhaseNames, k: nat)
    requires k < |stations|
    ensures StationLines(stations, first, names)
      == StationLines(stations[..k], first, names)
       + StationLine(first + k, stations[k], names)
       + StationLines(stations[k + 1..], first + k + 1, names)
  {
    assert stations == stations[..k] + [stations[k]] + stations[k + 1..];
    StationLinesAppend(stations[..k] + [stations[k]], stations[k + 1..], first, names);
    StationLinesAppend(stations[..k], [stations[k]], first, names);
    assert StationLines([stations[k]], first + k, names) == StationLine(first + k, stations[k], names) by {
      assert [stations[k]][..0] == [];
    }
  }

  /** With no newline in any description or short phase name, the listing has one line per station. */
  lemma {:induction false} StationLinesCount(stations: seq<TransitStation>, first: nat, names: PhaseNames)
    requires forall p: Phase :: '\n' !in names.short(p)
    requires forall k :: 0 <= k < |stations| ==> '\n' !in stations[k].description
    ensures Occurrences('\n', StationLines(stations, first, names)) == |stations|
  {
    if stations != [] {
      var n := |stations| - 1;
      StationLinesCount(stations[..n], first, names);
      StationLineCount(first + n, stations[n], names);
      OccurrencesAppend('\n', StationLines(stations[..n], first, names), StationLine(first + n, stations[n], names));
    }
  }

  lemma StationLineCount(index: nat, station: TransitStation, names: PhaseNames)
    requires '\n' !in names.short(station.phase) && '\n' !in station.description
    ensures Occurrences('\n', StationLine(index, station, names)) == 1
  {
    var digits := DecimalString(index);
    assert '\n' !in digits by {
      assert forall k :: 0 <= k < |digits| ==> digits[k] != '\n';
    }
    var text := "  [" + digits + "] (" + names.short(station.phase) + ") " + station.description;
    assert '\n' !in text;
    OccurrencesAbsent('\n', text);
    OccurrencesAppend('\n', text, "\n");
    OccurrencesSingle('\n', '\n');
    assert "\n" == ['\n'];
  }
}

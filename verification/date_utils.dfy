/** The timestamp normalizer: the decision policy of `parse_timestamp`, the
    UTC fallback of `convert_utc_to_timezone` and `is_valid_datetime`.

    The date parser and the time-zone database are libraries whose code is not
    part of this model; they enter as the fields of a `TzLibrary` value, and
    every statement below holds whatever those functions do. */
module DateUtils {
  import opened Wrappers
  import opened Text

  /** Wall-clock times and instants, in microseconds (the resolution of a
      parsed datetime). An `Instant` is always a UTC instant. */
  type Instant = int
  const MicrosPerSecond: int := 1_000_000
  const MicrosPerHour: int := 3600 * MicrosPerSecond

  /** A resolved time zone, identified by its catalog name. */
  datatype Zone = Zone(name: string)
  const UTC: Zone := Zone("UTC")

  /** What the date parser returns: a naive wall-clock value, or a value that
      carries its own zone or offset (then only its instant matters). */
  datatype Parsed = Naive(wall: int) | Aware(instant: Instant)

  /** Outcome of localizing a naive wall-clock value in a zone with
      `is_dst=True`: an instant, or one of the two exceptions the handlers
      of `parse_timestamp` catch. */
  datatype Localized = Localized(instant: Instant) | NonExistentTime | AmbiguousTime

  /** The library calls the normalizer makes. A `None` result is the library
      raising an exception. */
  datatype TzLibrary = TzLibrary(
    parse: (string, bool) -> Option<Parsed>,   // parser.parse(s, dayfirst=b)
    allTimezones: seq<string>,                 // pytz.all_timezones, in catalog order
    timezone: string -> Option<Zone>,          // pytz.timezone(name)
    localize: (Zone, int) -> Localized,        // zone.localize(wall, is_dst=True)
    toWall: (Zone, Instant) -> int,            // instant.astimezone(zone), as wall clock
    format: int -> string                      // strftime("%Y-%m-%d %H:%M:%S")
  )

  /** The tokens that stand for an explicitly missing timestamp. */
  predicate IsMissingTimestamp(s: string) {
    s == "" || Lower(Strip(s)) == "nan" || Lower(Strip(s)) == "none"
  }

  /** `parser.parse(s)` succeeds. */
  predicate IsValidDatetime(lib: TzLibrary, s: string) {
    lib.parse(s, false).Some?
  }

  /** Day-first parsing, falling back to the default order only when day-first
      raises. */
  function ParseEitherOrder(lib: TzLibrary, s: string): (r: Option<Parsed>)
    ensures r.Some? <==> lib.parse(s, true).Some? || IsValidDatetime(lib, s)
    ensures lib.parse(s, true).Some? ==> r == lib.parse(s, true)
    ensures lib.parse(s, true).None? ==> r == lib.parse(s, false)
  {
    match lib.parse(s, true)
    case Some(dt) => Some(dt)
    case None => lib.parse(s, false)
  }

  /** A text `is_valid_datetime` accepts always parses in one order or the
      other; when day-first parsing fails, the fallback succeeds exactly on
      the texts `is_valid_datetime` accepts. */
  lemma ValidDatetimeParses(lib: TzLibrary, s: string)
    ensures IsValidDatetime(lib, s) ==> ParseEitherOrder(lib, s).Some?
    ensures lib.parse(s, true).None? ==> (ParseEitherOrder(lib, s).Some? <==> IsValidDatetime(lib, s))
  {
  }

  /** No key, or one made of whitespace only. */
  predicate IsBlankTimezone(tz: Option<string>) {
    tz.None? || Strip(tz.value) == ""
  }

  /** A catalog name matches a key when the lower-cased key occurs in the
      lower-cased name. */
  predicate ZoneMatches(name: string, key: string) {
    Contains(Lower(name), Lower(key))
  }

  /** `[z for z in catalog if key.lower() in z.lower()]`. */
  function Candidates(catalog: seq<string>, key: string): (r: seq<string>)
    ensures |r| <= |catalog|
    ensures forall z :: z in r ==> z in catalog && ZoneMatches(z, key)
  {
    if catalog == [] then []
    else if ZoneMatches(catalog[0], key) then [catalog[0]] + Candidates(catalog[1..], key)
    else Candidates(catalog[1..], key)
  }

  /** There is no candidate exactly when no catalog name matches. */
  lemma {:induction false} NoCandidates(catalog: seq<string>, key: string)
    ensures Candidates(catalog, key) == [] <==>
              forall i :: 0 <= i < |catalog| ==> !ZoneMatches(catalog[i], key)
  {
    if catalog != [] {
      NoCandidates(catalog[1..], key);
      if Candidates(catalog, key) == [] {
        forall i | 0 <= i < |catalog| ensures !ZoneMatches(catalog[i], key) {
          if i > 0 { assert catalog[i] == catalog[1..][i - 1]; }
        }
      }
    }
  }

  /** The first candidate is the first matching name in catalog order. */
  lemma {:induction false} FirstCandidate(catalog: seq<string>, key: string)
    ensures Candidates(catalog, key) != [] ==>
              exists i :: 0 <= i < |catalog| && Candidates(catalog, key)[0] == catalog[i] &&
                ZoneMatches(catalog[i], key) &&
                forall j :: 0 <= j < i ==> !ZoneMatches(catalog[j], key)
  {
    if catalog != [] {
      FirstCandidate(catalog[1..], key);
      if !ZoneMatches(catalog[0], key) && Candidates(catalog, key) != [] {
        var i :| 0 <= i < |catalog[1..]| && Candidates(catalog[1..], key)[0] == catalog[1..][i] &&
                 ZoneMatches(catalog[1..][i], key) &&
                 forall j :: 0 <= j < i ==> !ZoneMatches(catalog[1..][j], key);
        assert forall j :: 0 <= j < i + 1 ==> !ZoneMatches(catalog[j], key) by {
          forall j | 0 <= j < i + 1 ensures !ZoneMatches(catalog[j], key) {
            if j > 0 { assert catalog[j] == catalog[1..][j - 1]; }
          }
        }
        assert Candidates(catalog, key)[0] == catalog[i + 1];
      }
    }
  }

  /** Zone resolution: UTC for a blank key; otherwise the exact lookup, then
      the first catalog name containing the key (case-insensitively), looked
      up in its turn; `None` when nothing matches. */
  function ResolveZone(lib: TzLibrary, tz: Option<string>): (r: Option<Zone>)
    ensures IsBlankTimezone(tz) ==> r == Some(UTC)
    ensures !IsBlankTimezone(tz) && lib.timezone(tz.value).Some? ==> r == lib.timezone(tz.value)
    ensures !IsBlankTimezone(tz) && lib.timezone(tz.value).None? ==>
              r == (if Candidates(lib.allTimezones, tz.value) == [] then None
                    else lib.timezone(Candidates(lib.allTimezones, tz.value)[0]))
  {
    if IsBlankTimezone(tz) then Some(UTC)
    else
      match lib.timezone(tz.value)
      case Some(z) => Some(z)
      case None =>
        var possible := Candidates(lib.allTimezones, tz.value);
        if possible == [] then None else lib.timezone(possible[0])
  }

  /** The fallback lookup in terms of catalog positions: a key that is
      neither blank nor an exact zone name resolves through the earliest
      matching catalog name, and to nothing when no name matches. */
  lemma ResolveZoneFallback(lib: TzLibrary, key: string)
    requires Strip(key) != "" && lib.timezone(key).None?
    ensures (forall i :: 0 <= i < |lib.allTimezones| ==> !ZoneMatches(lib.allTimezones[i], key)) ==>
              ResolveZone(lib, Some(key)).None?
    ensures forall i :: (0 <= i < |lib.allTimezones| && ZoneMatches(lib.allTimezones[i], key) &&
                         forall j :: 0 <= j < i ==> !ZoneMatches(lib.allTimezones[j], key)) ==>
              ResolveZone(lib, Some(key)) == lib.timezone(lib.allTimezones[i])
  {
    NoCandidates(lib.allTimezones, key);
    FirstCandidate(lib.allTimezones, key);
    forall i | 0 <= i < |lib.allTimezones| && ZoneMatches(lib.allTimezones[i], key) &&
               (forall j :: 0 <= j < i ==> !ZoneMatches(lib.allTimezones[j], key))
      ensures ResolveZone(lib, Some(key)) == lib.timezone(lib.allTimezones[i])
    {
      var k :| 0 <= k < |lib.allTimezones| && Candidates(lib.allTimezones, key)[0] == lib.allTimezones[k] &&
               ZoneMatches(lib.allTimezones[k], key) &&
               forall j :: 0 <= j < k ==> !ZoneMatches(lib.allTimezones[j], key);
      assert k == i;
    }
  }

  /** The result of a retried `localize` call: anything but an instant is an
      exception that escapes to the outer handler. */
  function Retry(outcome: Localized): Option<Instant> {
    match outcome
    case Localized(u) => Some(u)
    case _ => None
  }

  /** Localizing a naive value: a nonexistent wall time is moved forward one
      hour and localized again; an ambiguous one is localized again with the
      identical call. */
  function LocalizeNaive(lib: TzLibrary, z: Zone, wall: int): (r: Option<Instant>)
    ensures r.Some? ==>
              (lib.localize(z, wall).Localized? && r.value == lib.localize(z, wall).instant) ||
              (lib.localize(z, wall).NonExistentTime? && lib.localize(z, wall + MicrosPerHour).Localized? &&
               r.value == lib.localize(z, wall + MicrosPerHour).instant)
    ensures lib.localize(z, wall).Localized? ==> r.Some?
  {
    match lib.localize(z, wall)
    case Localized(u) => Some(u)
    case NonExistentTime => Retry(lib.localize(z, wall + MicrosPerHour))
    case AmbiguousTime => Retry(lib.localize(z, wall))
  }

  /** Every instant produced for a naive value is the `is_dst=True`
      localization of that wall time, or of the wall time one hour later when
      (and only when) the first localization found the time nonexistent. */
  lemma LocalizeNaiveOutcomes(lib: TzLibrary, z: Zone, wall: int)
    ensures lib.localize(z, wall).Localized? ==>
              LocalizeNaive(lib, z, wall) == Some(lib.localize(z, wall).instant)
    ensures lib.localize(z, wall).NonExistentTime? ==>
              (LocalizeNaive(lib, z, wall).Some? <==> lib.localize(z, wall + MicrosPerHour).Localized?) &&
              (LocalizeNaive(lib, z, wall).Some? ==>
                 LocalizeNaive(lib, z, wall) == Some(lib.localize(z, wall + MicrosPerHour).instant))
    ensures lib.localize(z, wall).AmbiguousTime? ==> LocalizeNaive(lib, z, wall).None?
  {
  }

  /** `parse_timestamp`: a UTC instant, or `None` on every failure path. */
  function ParseTimestamp(lib: TzLibrary, ts: string, tz: Option<string>): (r: Option<Instant>)
    ensures IsMissingTimestamp(ts) ==> r.None?
    ensures r.Some? ==> ParseEitherOrder(lib, ts).Some? && ResolveZone(lib, tz).Some?
  {
    if IsMissingTimestamp(ts) then None
    else
      match ParseEitherOrder(lib, ts)
      case None => None
      case Some(dt) =>
        match ResolveZone(lib, tz)
        case None => None
        case Some(z) =>
          match dt
          case Naive(wall) => LocalizeNaive(lib, z, wall)
          case Aware(u) => Some(u)
  }

  /** A value that carries its own zone or offset keeps its instant whatever
      zone the key resolves to; it still fails when the key resolves to
      none. */
  lemma AwareValueKeepsInstant(lib: TzLibrary, ts: string, tz: Option<string>, u: Instant)
    requires !IsMissingTimestamp(ts) && ParseEitherOrder(lib, ts) == Some(Aware(u))
    ensures ResolveZone(lib, tz).Some? ==> ParseTimestamp(lib, ts, tz) == Some(u)
    ensures ResolveZone(lib, tz).None? ==> ParseTimestamp(lib, ts, tz).None?
  {
  }

  /** A naive value under a key that resolves to a zone is localized in that
      zone under the daylight-saving policy of `LocalizeNaive`; a key that
      resolves to no zone makes it fail. */
  lemma NaiveValueLocalized(lib: TzLibrary, ts: string, tz: Option<string>, wall: int)
    requires !IsMissingTimestamp(ts) && ParseEitherOrder(lib, ts) == Some(Naive(wall))
    ensures ResolveZone(lib, tz).Some? ==>
              ParseTimestamp(lib, ts, tz) == LocalizeNaive(lib, ResolveZone(lib, tz).value, wall)
    ensures ResolveZone(lib, tz).None? ==> ParseTimestamp(lib, ts, tz).None?
  {
  }

  /** A naive value under a blank key is localized in UTC. */
  lemma BlankTimezoneMeansUtc(lib: TzLibrary, ts: string, tz: Option<string>, wall: int)
    requires !IsMissingTimestamp(ts) && ParseEitherOrder(lib, ts) == Some(Naive(wall))
    requires IsBlankTimezone(tz)
    ensures ParseTimestamp(lib, ts, tz) == LocalizeNaive(lib, UTC, wall)
  {
  }

  /** `convert_utc_to_timezone`: the instant formatted as wall-clock time in
      the named zone, or in UTC when the name is not a zone. */
  function ConvertUtcToTimezone(lib: TzLibrary, u: Instant, tzName: string): (r: string)
    ensures lib.timezone(tzName).None? ==> r == lib.format(lib.toWall(UTC, u))
    ensures lib.timezone(tzName).Some? ==> r == lib.format(lib.toWall(lib.timezone(tzName).value, u))
  {
    match lib.timezone(tzName)
    case Some(z) => lib.format(lib.toWall(z, u))
    case None => lib.format(lib.toWall(UTC, u))
  }
}

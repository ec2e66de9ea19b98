// The HFDL system table: validation of the configuration tree read from the
// system table file, registration of the ground stations it lists and the
// lookups the decoder makes in it.
//
// The libconfig tree is the Setting datatype: config_read_file's result is an
// input, and config_lookup_int, config_setting_get_member,
// config_setting_get_elem and config_setting_is_* become functions on it.

module Systable {
  import opened Common

  const STATION_ID_MAX: nat := 127
  const SYSTABLE_VERSION_MAX: int := 4095

  // ---------------------------------------------------------------------------
  // The configuration tree

  /** A libconfig setting. Integers are CONFIG_TYPE_INT; 64-bit integers and
      arrays are not distinguished. */
  datatype Setting =
    | IntSetting(i: int)
    | FloatSetting(r: real)
    | StringSetting(s: string)
    | BoolSetting(b: bool)
    | Group(members: seq<Member>)
    | List(elems: seq<Setting>)

  datatype Member = Member(name: string, value: Setting)

  /** config_setting_get_member: the member of a group with the given name. */
  function GetMember(members: seq<Member>, name: string): (r: Option<Setting>)
    ensures r.Some? ==> exists k :: 0 <= k < |members| && members[k].name == name && members[k].value == r.value
    ensures r.None? ==> forall k :: 0 <= k < |members| ==> members[k].name != name
  {
    if |members| == 0 then None
    else if members[0].name == name then Some(members[0].value)
    else
      var r := GetMember(members[1..], name);
      assert forall k :: 1 <= k < |members| ==> members[k] == members[1..][k - 1];
      r
  }

  /** config_setting_lookup_int / config_lookup_int: the value of an integer
      member, nothing when it is absent or of another type. */
  function LookupInt(members: seq<Member>, name: string): Option<int> {
    match GetMember(members, name)
    case Some(IntSetting(i)) => Some(i)
    case _ => None
  }

  /** config_setting_lookup_string. */
  function LookupString(members: seq<Member>, name: string): Option<string> {
    match GetMember(members, name)
    case Some(StringSetting(s)) => Some(s)
    case _ => None
  }

  /** config_setting_is_number. */
  predicate IsNumber(s: Setting) {
    s.IntSetting? || s.FloatSetting?
  }

  // ---------------------------------------------------------------------------
  // Error codes

  datatype ErrCode =
    | ErrOk
    | ErrLibconfig
    | ErrVersionMissing
    | ErrVersionOutOfRange
    | ErrStationsMissing
    | ErrStationWrongType
    | ErrStationIdMissing
    | ErrStationIdOutOfRange
    | ErrStationIdDuplicate
    | ErrStationNameWrongType
    | ErrFrequenciesMissing
    | ErrFrequencyWrongType

  /** The value of enum systable_err_code. */
  function Code(e: ErrCode): (c: nat)
    ensures c < 12
  {
    match e
    case ErrOk => 0
    case ErrLibconfig => 1
    case ErrVersionMissing => 2
    case ErrVersionOutOfRange => 3
    case ErrStationsMissing => 4
    case ErrStationWrongType => 5
    case ErrStationIdMissing => 6
    case ErrStationIdOutOfRange => 7
    case ErrStationIdDuplicate => 8
    case ErrStationNameWrongType => 9
    case ErrFrequenciesMissing => 10
    case ErrFrequencyWrongType => 11
  }

  lemma CodeInjective(a: ErrCode, b: ErrCode)
    requires Code(a) == Code(b)
    ensures a == b
  {
  }

  const ErrorMessages: seq<DictEntry> := [
    DictEntry(Code(ErrOk), "no error"),
    DictEntry(Code(ErrVersionMissing), "version missing or wrong type (must be an integer)"),
    DictEntry(Code(ErrVersionOutOfRange), "version out of range"),
    DictEntry(Code(ErrStationsMissing), "stations missing or wrong type (must be a list)"),
    DictEntry(Code(ErrStationWrongType), "station setting has wrong type (must be a group)"),
    DictEntry(Code(ErrStationIdMissing), "station id missing or wrong type (must be an integer)"),
    DictEntry(Code(ErrStationIdOutOfRange), "station id out of range"),
    DictEntry(Code(ErrStationIdDuplicate), "duplicate station id"),
    DictEntry(Code(ErrStationNameWrongType), "name setting has wrong type (must be a string)"),
    DictEntry(Code(ErrFrequenciesMissing), "frequencies missing or wrong type (must be a list)"),
    DictEntry(Code(ErrFrequencyWrongType), "frequency setting has wrong type (must be a number)")]

  // ---------------------------------------------------------------------------
  // The checks, as values. None means the check passed.

  /** systable_parse_version. */
  function VersionErr(root: seq<Member>): Option<ErrCode> {
    match LookupInt(root, "version")
    case None => Some(ErrVersionMissing)
    case Some(v) => if v < 0 || v > SYSTABLE_VERSION_MAX then Some(ErrVersionOutOfRange) else None
  }

  /** systable_parse_station_id. */
  function StationIdErr(station: seq<Member>): Option<ErrCode> {
    match LookupInt(station, "id")
    case None => Some(ErrStationIdMissing)
    case Some(id) => if id < 0 || id > STATION_ID_MAX then Some(ErrStationIdOutOfRange) else None
  }

  /** systable_parse_station_name: the name is optional, but must be a string. */
  function StationNameErr(station: seq<Member>): Option<ErrCode> {
    match GetMember(station, "name")
    case None => None
    case Some(StringSetting(_)) => None
    case Some(_) => Some(ErrStationNameWrongType)
  }

  /** The first element of a frequency list that is not a number. */
  function FirstNonNumber(elems: seq<Setting>): (k: nat)
    ensures k <= |elems|
    ensures forall j :: 0 <= j < k ==> IsNumber(elems[j])
    ensures k < |elems| ==> !IsNumber(elems[k])
  {
    if |elems| == 0 then 0
    else if !IsNumber(elems[0]) then 0
    else
      var k := FirstNonNumber(elems[1..]);
      assert forall j :: 1 <= j < |elems| ==> elems[j] == elems[1..][j - 1];
      1 + k
  }

  /** systable_parse_frequencies. */
  function FrequenciesErr(station: seq<Member>): Option<ErrCode> {
    match GetMember(station, "frequencies")
    case Some(List(elems)) => if FirstNonNumber(elems) < |elems| then Some(ErrFrequencyWrongType) else None
    case _ => Some(ErrFrequenciesMissing)
  }

  /** The last failure among checks run one after another. */
  function LastErr(a: Option<ErrCode>, b: Option<ErrCode>): Option<ErrCode> {
    if b.Some? then b else a
  }

  /** systable_parse_station: a group whose id, name and frequencies are all
      checked; the error is that of the last failing check. */
  function StationErr(station: Setting): Option<ErrCode> {
    match station
    case Group(m) => LastErr(LastErr(StationIdErr(m), StationNameErr(m)), FrequenciesErr(m))
    case _ => Some(ErrStationWrongType)
  }

  /** The id of a station that passed its checks. */
  function StationId(station: Setting): (id: nat)
    requires StationErr(station).None?
    ensures id <= STATION_ID_MAX
  {
    LookupInt(station.members, "id").value
  }

  // ---------------------------------------------------------------------------
  // The table as a value: what the registration steps do to it

  datatype Table = Table(stations: seq<Option<Setting>>, err: ErrCode)

  predicate ValidTable(t: Table) {
    |t.stations| == STATION_ID_MAX + 1
  }

  /** systable_parse_station followed by systable_add_station. */
  function Register(t: Table, station: Setting): (r: (bool, Table))
    requires ValidTable(t)
    ensures ValidTable(r.1)
  {
    match StationErr(station)
    case Some(e) => (false, t.(err := e))
    case None =>
      var id := StationId(station);
      if t.stations[id].Some? then (false, t.(err := ErrStationIdDuplicate))
      else (true, t.(stations := t.stations[id := Some(station)]))
  }

  /** The loop of systable_parse_stations: stops at the first station that
      fails. */
  function RegisterAll(t: Table, elems: seq<Setting>): (r: (bool, Table))
    requires ValidTable(t)
    ensures ValidTable(r.1)
    decreases |elems|
  {
    if |elems| == 0 then (true, t)
    else
      var (ok, t1) := Register(t, elems[0]);
      if !ok then (false, t1) else RegisterAll(t1, elems[1..])
  }

  /** systable_parse_stations. */
  function StationsSpec(root: seq<Member>, t: Table): (r: (bool, Table))
    requires ValidTable(t)
    ensures ValidTable(r.1)
  {
    match GetMember(root, "stations")
    case Some(List(elems)) => RegisterAll(t, elems)
    case _ => (false, t.(err := ErrStationsMissing))
  }

  /** systable_parse: both parts run; the result is their conjunction. */
  function ParseSpec(root: seq<Member>, t: Table): (r: (bool, Table))
    requires ValidTable(t)
    ensures ValidTable(r.1)
  {
    var v := VersionErr(root);
    var t1 := if v.Some? then t.(err := v.value) else t;
    var (ok, t2) := StationsSpec(root, t1);
    (v.None? && ok, t2)
  }

  // ---------------------------------------------------------------------------
  // Properties of the specification

  /** The version and the station list are both checked; the result is true
      exactly when both pass, and the error left behind is that of the later
      failure, or the earlier error when nothing failed. */
  lemma ParseBothChecked(root: seq<Member>, t: Table)
    requires ValidTable(t)
    ensures var v := VersionErr(root);
      var s := StationsSpec(root, if v.Some? then t.(err := v.value) else t);
      && ParseSpec(root, t).0 == (v.None? && s.0)
      && ParseSpec(root, t).1.stations == s.1.stations
    ensures ParseSpec(root, t).0 ==> ParseSpec(root, t).1.err == t.err
    ensures !StationsSpec(root, t).0 ==> ParseSpec(root, t).1.err == StationsSpec(root, t).1.err
    ensures VersionErr(root).Some? && StationsSpec(root, t).0 ==> ParseSpec(root, t).1.err == VersionErr(root).value
  {
    var v := VersionErr(root);
    var t1 := if v.Some? then t.(err := v.value) else t;
    StationsIgnoreErr(root, t, t1);
    StationsKeepErrOnSuccess(root, t1);
    StationsKeepErrOnSuccess(root, t);
  }

  /** The station checks do not look at the error code they overwrite. */
  lemma StationsIgnoreErr(root: seq<Member>, t: Table, u: Table)
    requires ValidTable(t) && t.stations == u.stations
    ensures StationsSpec(root, t).0 == StationsSpec(root, u).0
    ensures StationsSpec(root, t).1.stations == StationsSpec(root, u).1.stations
    ensures !StationsSpec(root, t).0 ==> StationsSpec(root, t).1.err == StationsSpec(root, u).1.err
  {
    match GetMember(root, "stations")
    case Some(List(elems)) => RegisterAllIgnoresErr(t, u, elems);
    case _ =>
  }

  lemma {:induction false} RegisterAllIgnoresErr(t: Table, u: Table, elems: seq<Setting>)
    requires ValidTable(t) && t.stations == u.stations
    ensures RegisterAll(t, elems).0 == RegisterAll(u, elems).0
    ensures RegisterAll(t, elems).1.stations == RegisterAll(u, elems).1.stations
    ensures !RegisterAll(t, elems).0 ==> RegisterAll(t, elems).1.err == RegisterAll(u, elems).1.err
    decreases |elems|
  {
    if |elems| > 0 {
      var (ok, t1) := Register(t, elems[0]);
      var (ok', u1) := Register(u, elems[0]);
      if ok {
        RegisterAllIgnoresErr(t1, u1, elems[1..]);
      }
    }
  }

  lemma StationsKeepErrOnSuccess(root: seq<Member>, t: Table)
    requires ValidTable(t)
    ensures StationsSpec(root, t).0 ==> StationsSpec(root, t).1.err == t.err
  {
    match GetMember(root, "stations")
    case Some(List(elems)) => RegisterAllKeepsErr(t, elems);
    case _ =>
  }

  lemma {:induction false} RegisterAllKeepsErr(t: Table, elems: seq<Setting>)
    requires ValidTable(t)
    ensures RegisterAll(t, elems).0 ==> RegisterAll(t, elems).1.err == t.err
    decreases |elems|
  {
    if |elems| > 0 {
      var (ok, t1) := Register(t, elems[0]);
      if ok {
        RegisterAllKeepsErr(t1, elems[1..]);
      }
    }
  }

  /** A station once registered is never replaced or removed, whatever
      happens to the stations after it. */
  lemma {:induction false} RegisterAllKeepsRegistered(t: Table, elems: seq<Setting>, id: nat)
    requires ValidTable(t) && id <= STATION_ID_MAX && t.stations[id].Some?
    ensures RegisterAll(t, elems).1.stations[id] == t.stations[id]
    decreases |elems|
  {
    if |elems| > 0 {
      var (ok, t1) := Register(t, elems[0]);
      if ok {
        RegisterAllKeepsRegistered(t1, elems[1..], id);
      }
    }
  }

  /** When registration succeeds every listed station is registered under its
      id, the ids are pairwise distinct and none of them was in use before. */
  lemma {:induction false} RegisterAllRegistersEach(t: Table, elems: seq<Setting>)
    requires ValidTable(t) && RegisterAll(t, elems).0
    ensures forall k :: 0 <= k < |elems| ==> StationErr(elems[k]).None?
    ensures forall k :: 0 <= k < |elems| ==>
      t.stations[StationId(elems[k])].None? && RegisterAll(t, elems).1.stations[StationId(elems[k])] == Some(elems[k])
    ensures forall j, k :: 0 <= j < k < |elems| ==> StationId(elems[j]) != StationId(elems[k])
    decreases |elems|
  {
    if |elems| > 0 {
      var t1 := Register(t, elems[0]).1;
      var rest := elems[1..];
      assert StationErr(elems[0]).None?;
      var id0 := StationId(elems[0]);
      assert t.stations[id0].None? && t1.stations == t.stations[id0 := Some(elems[0])];
      assert RegisterAll(t, elems) == RegisterAll(t1, rest);
      RegisterAllRegistersEach(t1, rest);
      RegisterAllKeepsRegistered(t1, rest, id0);
      forall k | 1 <= k < |elems|
        ensures StationId(elems[k]) != id0 && t.stations[StationId(elems[k])].None?
      {
        assert elems[k] == rest[k - 1];
        assert t1.stations[StationId(rest[k - 1])].None?;
      }
      forall j, k | 0 <= j < k < |elems|
        ensures StationId(elems[j]) != StationId(elems[k])
      {
        if j > 0 {
          assert elems[j] == rest[j - 1] && elems[k] == rest[k - 1];
        }
      }
      forall k | 0 <= k < |elems|
        ensures StationErr(elems[k]).None?
      {
        if k > 0 {
          assert elems[k] == rest[k - 1];
        }
      }
    }
  }

  /** A station whose id is already taken stops the registration with
      ST_ERR_STATION_ID_DUPLICATE, and the earlier registrations stay. */
  lemma RegisterDuplicate(t: Table, station: Setting)
    requires ValidTable(t) && StationErr(station).None? && t.stations[StationId(station)].Some?
    ensures Register(t, station) == (false, t.(err := ErrStationIdDuplicate))
  {
  }

  // ---------------------------------------------------------------------------
  // Lookups

  /** The lookup guard as written: id < STATION_ID_MAX. */
  predicate LookupRangeAsWritten(id: int) {
    0 <= id < STATION_ID_MAX
  }

  /** The lookup guard matching the parser's range 0..STATION_ID_MAX. */
  predicate LookupRange(id: int) {
    0 <= id <= STATION_ID_MAX
  }

  /** The parser accepts id 127, but the lookup as written never returns it. */
  lemma StationIdMaxAcceptedButNotFound()
    ensures StationIdErr([Member("id", IntSetting(127))]).None?
    ensures !LookupRangeAsWritten(127)
    ensures LookupRange(127)
  {
  }

  /** The corrected guard admits exactly the ids the parser accepts. */
  lemma LookupRangeMatchesParser(m: seq<Member>)
    requires LookupInt(m, "id").Some?
    ensures StationIdErr(m).None? <==> LookupRange(LookupInt(m, "id").value)
  {
  }

  // ---------------------------------------------------------------------------
  // struct systable

  class SystemTable {
    /** The member list of the root group of the file read last. */
    var cfg: seq<Member>
    var savefilePath: Option<string>
    /** stations[STATION_ID_MAX + 1]: the registered station settings. */
    const stations: array<Option<Setting>>
    var err: ErrCode

    predicate Valid()
      reads this
    {
      stations.Length == STATION_ID_MAX + 1
    }

    ghost function Snapshot(): (t: Table)
      reads this, stations
      requires Valid()
      ensures ValidTable(t)
    {
      Table(stations[..], err)
    }

    /** systable_create: an empty configuration, no stations, no error. */
    constructor (savefile: Option<string>)
      ensures Valid() && fresh(stations)
      ensures cfg == [] && savefilePath == savefile && err == ErrOk
      ensures forall id :: 0 <= id < stations.Length ==> stations[id].None?
    {
      cfg := [];
      savefilePath := savefile;
      stations := new Option<Setting>[STATION_ID_MAX + 1](_ => None);
      err := ErrOk;
    }

    /** systable_read_from_file. What config_read_file makes of the file is an
        input: None when libconfig fails, else the root group's members. */
    method ReadFromFile(file: Option<seq<Member>>) returns (ok: bool)
      requires Valid()
      modifies this, stations
      ensures Valid() && savefilePath == old(savefilePath)
      ensures file.None? ==> !ok && err == ErrLibconfig && stations[..] == old(stations[..]) && cfg == old(cfg)
      ensures file.Some? ==> cfg == file.value && (ok, Snapshot()) == ParseSpec(file.value, old(Snapshot()))
    {
      if file.None? {
        err := ErrLibconfig;
        return false;
      }
      cfg := file.value;
      ok := Parse();
    }

    /** systable_parse. */
    method Parse() returns (ok: bool)
      requires Valid()
      modifies this, stations
      ensures Valid() && cfg == old(cfg) && savefilePath == old(savefilePath)
      ensures (ok, Snapshot()) == ParseSpec(cfg, old(Snapshot()))
    {
      var v := ParseVersion();
      var s := ParseStations();
      ok := v && s;
    }

    /** systable_parse_version. */
    method ParseVersion() returns (ok: bool)
      requires Valid()
      modifies this
      ensures Valid() && cfg == old(cfg) && savefilePath == old(savefilePath)
      ensures ok <==> VersionErr(cfg).None?
      ensures err == if ok then old(err) else VersionErr(cfg).value
    {
      var version := LookupInt(cfg, "version");
      if version.None? {
        err := ErrVersionMissing;
        return false;
      }
      if version.value < 0 || version.value > SYSTABLE_VERSION_MAX {
        err := ErrVersionOutOfRange;
        return false;
      }
      return true;
    }

    /** systable_parse_stations. */
    method ParseStations() returns (ok: bool)
      requires Valid()
      modifies this, stations
      ensures Valid() && cfg == old(cfg) && savefilePath == old(savefilePath)
      ensures (ok, Snapshot()) == StationsSpec(cfg, old(Snapshot()))
    {
      var list := GetMember(cfg, "stations");
      if !list.Some? || !list.value.List? {
        err := ErrStationsMissing;
        return false;
      }
      var elems := list.value.elems;
      ghost var t0 := Snapshot();
      var idx := 0;
      while idx < |elems|
        invariant 0 <= idx <= |elems|
        invariant Valid() && cfg == old(cfg) && savefilePath == old(savefilePath)
        invariant RegisterAll(t0, elems) == RegisterAll(Snapshot(), elems[idx..])
      {
        ghost var t := Snapshot();
        assert elems[idx..][1..] == elems[idx + 1..];
        var r := ParseStation(elems[idx]);
        if r {
          r := AddStation(elems[idx]);
        }
        if !r {
          return false;
        }
        idx := idx + 1;
      }
      return true;
    }

    /** systable_parse_station: the checks of one station. The loop of
        systable_parse_stations runs AddStation only when they pass. */
    method ParseStation(station: Setting) returns (ok: bool)
      requires Valid()
      modifies this
      ensures Valid() && cfg == old(cfg) && savefilePath == old(savefilePath)
      ensures ok <==> StationErr(station).None?
      ensures err == if ok then old(err) else StationErr(station).value
    {
      if !station.Group? {
        err := ErrStationWrongType;
        return false;
      }
      var freqErr := CheckFrequencies(station.members);
      var e := LastErr(LastErr(StationIdErr(station.members), StationNameErr(station.members)), freqErr);
      if e.Some? {
        err := e.value;
        return false;
      }
      return true;
    }

    /** systable_add_station. */
    method AddStation(station: Setting) returns (ok: bool)
      requires Valid() && StationErr(station).None?
      modifies this, stations
      ensures Valid() && cfg == old(cfg) && savefilePath == old(savefilePath)
      ensures (ok, Snapshot()) == Register(old(Snapshot()), station)
    {
      var id := StationId(station);
      if stations[id].Some? {
        err := ErrStationIdDuplicate;
        return false;
      }
      stations[id] := Some(station);
      return true;
    }
  }

  /** systable_parse_frequencies, with its loop over the list. */
  method CheckFrequencies(station: seq<Member>) returns (e: Option<ErrCode>)
    ensures e == FrequenciesErr(station)
  {
    var list := GetMember(station, "frequencies");
    if !list.Some? || !list.value.List? {
      return Some(ErrFrequenciesMissing);
    }
    var elems := list.value.elems;
    var idx := 0;
    while idx < |elems|
      invariant 0 <= idx <= |elems|
      invariant forall j :: 0 <= j < idx ==> IsNumber(elems[j])
    {
      if !IsNumber(elems[idx]) {
        return Some(ErrFrequencyWrongType);
      }
      idx := idx + 1;
    }
    return None;
  }

  /** systable_error_text. config_error_text is an input. */
  function ErrorText(st: SystemTable?, libconfigText: string): (r: Option<string>)
    reads st
  {
    if st == null then None
    else if st.err == ErrLibconfig then Some(libconfigText)
    else DictSearch(ErrorMessages, Code(st.err))
  }

  /** Every error code of a table has a message. */
  lemma ErrorTextDefined(st: SystemTable, libconfigText: string)
    ensures ErrorText(st, libconfigText).Some?
    ensures st.err == ErrOk ==> ErrorText(st, libconfigText) == Some("no error")
  {
    if st.err != ErrLibconfig {
      var k := Code(st.err) - if Code(st.err) == 0 then 0 else 1;
      assert ErrorMessages[k].id == Code(st.err);
    }
  }

  /** systable_get_version: the version setting if it is an integer, -1
      otherwise; the range check of the parser is not repeated. */
  function GetVersion(st: SystemTable?): (v: int)
    reads st
    ensures st == null ==> v == -1
    ensures st != null && LookupInt(st.cfg, "version").Some? ==> v == LookupInt(st.cfg, "version").value
    ensures st != null && LookupInt(st.cfg, "version").None? ==> v == -1
  {
    if st == null then -1
    else match LookupInt(st.cfg, "version")
      case Some(version) => version
      case None => -1
  }

  /** systable_get_station_name with the lookup guard as written. */
  function GetStationNameAsWritten(st: SystemTable?, id: int): Option<string>
    reads st, if st != null then {st.stations} else {}
    requires st != null ==> st.Valid()
  {
    if st != null && LookupRangeAsWritten(id) && st.stations[id].Some? && st.stations[id].value.Group? then
      LookupString(st.stations[id].value.members, "name")
    else None
  }

  /** systable_get_station_name, with the guard admitting every id the parser
      accepts. */
  function GetStationName(st: SystemTable?, id: int): (r: Option<string>)
    reads st, if st != null then {st.stations} else {}
    requires st != null ==> st.Valid()
    ensures r.Some? ==> st != null && LookupRange(id) && st.stations[id].Some?
    ensures LookupRangeAsWritten(id) ==> r == GetStationNameAsWritten(st, id)
  {
    if st != null && LookupRange(id) && st.stations[id].Some? && st.stations[id].value.Group? then
      LookupString(st.stations[id].value.members, "name")
    else None
  }

  /** A registered station with a name is found by its id, 127 included,
      while the as-written lookup misses station 127. */
  lemma RegisteredStationFound(st: SystemTable, station: Setting)
    requires st.Valid() && StationErr(station).None?
    requires st.stations[StationId(station)] == Some(station)
    requires LookupString(station.members, "name").Some?
    ensures GetStationName(st, StationId(station)) == LookupString(station.members, "name")
    ensures StationId(station) == STATION_ID_MAX ==> GetStationNameAsWritten(st, StationId(station)).None?
  {
  }
}

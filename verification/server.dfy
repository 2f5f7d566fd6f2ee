/**
 * One game server as the browser sees it: its connection (address), the info
 * hash it last received and the state tag set by each request/read step.
 * The info hash holds the decoded `infoResponse` strings, the `updated_at`
 * stamp and, under `sv_status`, the decoded status hash with its own stamp.
 * Times are integer seconds supplied by the caller in place of DateTime.now.
 */
module ServerRecord {
  import opened TextUtil
  import opened ServerConnection

  /** The `status` attribute: Unset is the initial nil, the others the symbols
      of STATUS. */
  datatype Tag = Unset | Request | RequestStatus | Response | ResponseStatus | Destroyed

  // ---------------------------------------------------------------------------
  // Display name and game type

  /** `gsub(/(\^[0-9]{1})/, '')`: scans left to right and drops every caret
      followed by a digit, pair by pair, without overlap. */
  function StripColors(s: string): (r: string)
    ensures |r| <= |s|
  {
    if |s| == 0 then ""
    else if s[0] == '^' && |s| >= 2 && IsDigit(s[1]) then StripColors(s[2..])
    else [s[0]] + StripColors(s[1..])
  }

  /** The scan never looks past a last character that is not a caret, so the
      text before such a point is cleaned on its own. */
  lemma {:induction false} StripColorsAppend(a: string, b: string)
    requires |a| == 0 || a[|a| - 1] != '^'
    ensures StripColors(a + b) == StripColors(a) + StripColors(b)
  {
    var x := a + b;
    if |a| == 0 {
      assert x == b;
    } else if a[0] == '^' && |a| >= 2 && IsDigit(a[1]) {
      assert x[0] == '^' && x[1] == a[1] && x[2..] == a[2..] + b;
      assert StripColors(x) == StripColors(a[2..] + b);
      StripColorsAppend(a[2..], b);
    } else {
      assert a[0] == '^' ==> |a| >= 2;
      assert x[0] == a[0] && (|a| >= 2 ==> x[1] == a[1]) && x[1..] == a[1..] + b;
      assert StripColors(x) == [a[0]] + StripColors(a[1..] + b);
      StripColorsAppend(a[1..], b);
    }
  }

  /** A caret and a digit go, whatever follows. */
  lemma {:induction false} DropColourCode(d: char, s: string)
    requires IsDigit(d)
    ensures StripColors(['^', d] + s) == StripColors(s)
  {
    assert (['^', d] + s)[2..] == s;
  }

  /** Colour codes go and the plain text stays: "^1Foo^7Bar" is shown as "FooBar". */
  lemma {:induction false} StripColorsTwoCodes(d1: char, x: string, d2: char, y: string)
    requires IsDigit(d1) && IsDigit(d2) && Free(x, {'^'}) && Free(y, {'^'})
    ensures StripColors(['^', d1] + x + ['^', d2] + y) == x + y
  {
    var a, b := ['^', d1] + x, ['^', d2] + y;
    assert StripColors(a) == x by {
      ColourFree(x);
      DropColourCode(d1, x);
    }
    assert StripColors(b) == y by {
      ColourFree(y);
      DropColourCode(d2, y);
    }
    assert a[|a| - 1] != '^' by {
      if |x| > 0 {
        assert a[|a| - 1] == x[|x| - 1];
      }
    }
    StripColorsAppend(a, b);
    assert a + b == ['^', d1] + x + ['^', d2] + y;
  }

  /** A caret before a colour code stays, so a second pass removes more. */
  lemma StripColorsNotIdempotent()
    ensures StripColors("^^12") == "^2" && StripColors("^2") == ""
  {
    ColourFree("2");
    DropColourCode('1', "2");
    DropColourCode('2', "");
    assert "^^12" == "^" + (['^', '1'] + "2");
    assert StripColors("^^12") == "^" + StripColors(['^', '1'] + "2");
  }

  /** Text without a caret is left as it is. */
  lemma {:induction false} ColourFree(s: string)
    requires Free(s, {'^'})
    ensures StripColors(s) == s
  {
    if |s| > 0 {
      assert Free(s[1..], {'^'});
      ColourFree(s[1..]);
      assert [s[0]] + s[1..] == s;
    }
  }

  const GameTypes: map<string, string> := map["0" := "FFA", "4" := "TS", "7" := "CTF", "9" := "JMP"]

  /** `GT.fetch(info['gametype'], '')`. */
  function GameType(info: map<string, Value>): (r: string)
    ensures r in {"FFA", "TS", "CTF", "JMP", ""}
    ensures r != "" <==> ("gametype" in info && info["gametype"] in {Str("0"), Str("4"), Str("7"), Str("9")})
    ensures r == "FFA" <==> ("gametype" in info && info["gametype"] == Str("0"))
    ensures r == "TS" <==> ("gametype" in info && info["gametype"] == Str("4"))
    ensures r == "CTF" <==> ("gametype" in info && info["gametype"] == Str("7"))
    ensures r == "JMP" <==> ("gametype" in info && info["gametype"] == Str("9"))
  {
    if "gametype" in info && info["gametype"].Str? && info["gametype"].s in GameTypes
    then GameTypes[info["gametype"].s]
    else ""
  }

  // ---------------------------------------------------------------------------
  // The info hash

  /** `updated_at`: the stamp written by `touch!`, if any. */
  function UpdatedAt(info: map<string, Value>): Option<int> {
    if "updated_at" in info && info["updated_at"].Stamp? then Some(info["updated_at"].secs) else None
  }

  /** `info_status`: `info['sv_status'] || {}`, whatever is stored there. It
      is the status hash after a status read, but an info reply that carries
      a `sv_status` key of its own leaves a string there. */
  function InfoStatus(info: map<string, Value>): Value {
    if "sv_status" in info then info["sv_status"] else Table(map[])
  }

  /** `empty?` on a stored value; a stamp, which no operation stores under
      `sv_status`, counts as not empty. */
  predicate EmptyValue(v: Value) {
    match v
    case Str(s) => s == ""
    case Roster(ps) => ps == []
    case Table(m) => m == map[]
    case Stamp(_) => false
  }

  /** `status_updated_at`: `info.dig('sv_status', 'updated_at')`, which raises
      TypeError when `sv_status` holds anything but a hash. */
  function StatusUpdatedAt(info: map<string, Value>): Result<Option<int>> {
    match InfoStatus(info)
    case Table(st) =>
      Ok(if "updated_at" in st && st["updated_at"].Stamp? then Some(st["updated_at"].secs) else None)
    case _ => Err(NotAHash)
  }

  predicate HasInfo(info: map<string, Value>) {
    info != map[]
  }

  predicate HasInfoStatus(info: map<string, Value>) {
    HasInfo(info) && !EmptyValue(InfoStatus(info))
  }

  /** A stamp is only found in a non-empty hash: `updated_at` answering
      implies `info?`, `status_updated_at` answering implies `info_status?`,
      and `info_status?` implies `info?`. */
  lemma StampsImplyPresence(info: map<string, Value>)
    ensures UpdatedAt(info).Some? ==> HasInfo(info)
    ensures StatusUpdatedAt(info).Ok? && StatusUpdatedAt(info).value.Some? ==> HasInfoStatus(info)
    ensures HasInfoStatus(info) ==> HasInfo(info)
  {
    if StatusUpdatedAt(info).Ok? && StatusUpdatedAt(info).value.Some? {
      assert "updated_at" in InfoStatus(info).entries;
    }
  }

  /** The hash `read_info` leaves: the read result replaces everything, then
      `touch!` stamps it. A `sv_status` key in the reply stays a string, so
      `info_status?` holds when it is non-empty and `status_updated_at` raises. */
  function AfterReadInfo(read: map<string, string>, now: int): (r: map<string, Value>)
    ensures HasInfo(r) && UpdatedAt(r) == Some(now)
    ensures "sv_status" !in read ==> InfoStatus(r) == Table(map[])
    ensures "sv_status" in read ==> InfoStatus(r) == Str(read["sv_status"]) && StatusUpdatedAt(r) == Err(NotAHash)
    ensures HasInfoStatus(r) <==> "sv_status" in read && read["sv_status"] != ""
    ensures r.Keys == read.Keys + {"updated_at"}
    ensures forall k :: k in read && k != "updated_at" ==> r[k] == Str(read[k])
  {
    var r := Lift(read)["updated_at" := Stamp(now)];
    assert "updated_at" in r;
    r
  }

  /** The hash `read_status` leaves: the read result goes under `sv_status`,
      then `status_touch!` stamps it there; other keys keep their values. */
  function AfterReadStatus(info: map<string, Value>, read: map<string, Value>, now: int): (r: map<string, Value>)
    ensures r.Keys == info.Keys + {"sv_status"}
    ensures forall k :: k in info && k != "sv_status" ==> r[k] == info[k]
    ensures InfoStatus(r).Table? && InfoStatus(r).entries.Keys == read.Keys + {"updated_at"}
    ensures forall k :: k in read && k != "updated_at" ==> InfoStatus(r).entries[k] == read[k]
    ensures StatusUpdatedAt(r) == Ok(Some(now)) && HasInfoStatus(r)
  {
    info["sv_status" := Table(read["updated_at" := Stamp(now)])]
  }

  // ---------------------------------------------------------------------------
  // filter_info

  /** `info['hostname'] = name_c_sanitized`: only the host name changes. */
  function SanitizedInfo(info: map<string, Value>): (r: map<string, Value>)
    ensures r.Keys == info.Keys
    ensures forall k :: k in info && k != "hostname" ==> r[k] == info[k]
    ensures "hostname" in info && info["hostname"].Str? ==> r["hostname"] == Str(StripColors(info["hostname"].s))
  {
    if "hostname" in info && info["hostname"].Str?
    then info["hostname" := Str(StripColors(info["hostname"].s))]
    else info
  }

  /** `info[k].downcase =~ /#{v.downcase}/`, with the criterion read literally. */
  predicate ValueMatches(v: Value, criterion: string) {
    v.Str? && Contains(Lower(v.s), Lower(criterion))
  }

  /** Some criterion key is present and its value matches. */
  predicate AnyCriterion(info: map<string, Value>, filter: map<string, string>) {
    exists k :: k in filter && k in info && ValueMatches(info[k], filter[k])
  }

  /** Some criterion key is present with a value that is not a string, so
      `downcase` raises NoMethodError (`select` visits every criterion). */
  predicate CriterionRaises(info: map<string, Value>, filter: map<string, string>) {
    exists k :: k in filter && k in info && !info[k].Str?
  }

  /** The answer of `filter_info`, or the error it raises. */
  function FilterAccepts(info: map<string, Value>, filter: map<string, string>): (r: Result<bool>)
    ensures info == map[] ==> r == Ok(false)
    ensures info != map[] && filter == map[] ==> r == Ok(true)
    ensures info != map[] && filter != map[] ==>
              (r.Err? <==> CriterionRaises(SanitizedInfo(info), filter)) &&
              (r.Ok? ==> (r.value <==> AnyCriterion(SanitizedInfo(info), filter)))
    ensures r.Err? ==> r.error == NotAString
  {
    if info == map[] then Ok(false)
    else if filter == map[] then Ok(true)
    else if CriterionRaises(SanitizedInfo(info), filter) then Err(NotAString)
    else Ok(AnyCriterion(SanitizedInfo(info), filter))
  }

  /** The info hash `filter_info` leaves behind: only a non-empty filter on a
      non-empty hash sanitizes the host name. */
  function FilterRewrite(info: map<string, Value>, filter: map<string, string>): (r: map<string, Value>)
    ensures r.Keys == info.Keys
    ensures forall k :: k in info && k != "hostname" ==> r[k] == info[k]
    ensures info == map[] || filter == map[] ==> r == info
  {
    if info == map[] || filter == map[] then info else SanitizedInfo(info)
  }

  /** Filtering on the fetch stamp raises: it is not a string. */
  lemma FilterStampExample()
    ensures FilterAccepts(map["updated_at" := Stamp(5)], map["updated_at" := "5"]) == Err(NotAString)
  {
    var stamped := map["updated_at" := Stamp(5)];
    assert SanitizedInfo(stamped) == stamped;
    var byStamp := map["updated_at" := "5"];
    assert "updated_at" in byStamp && "updated_at" in stamped && !stamped["updated_at"].Str?;
    assert CriterionRaises(stamped, byStamp);
  }

  /** A `gametype` criterion "ctf" accepts a "CTF" server and rejects "ffa". */
  lemma FilterGametypeExample()
    ensures FilterAccepts(map["gametype" := Str("CTF")], map["gametype" := "ctf"]) == Ok(true)
    ensures FilterAccepts(map["gametype" := Str("ffa")], map["gametype" := "ctf"]) == Ok(false)
  {
    var ctf := map["gametype" := Str("CTF")];
    assert SanitizedInfo(ctf) == ctf;
    assert Lower("CTF") == "ctf" && Lower("ctf") == "ctf";
    assert "ctf" <= "ctf"[0..];
    assert ValueMatches(ctf["gametype"], "ctf");
    assert AnyCriterion(ctf, map["gametype" := "ctf"]);
    var ffa := map["gametype" := Str("ffa")];
    assert SanitizedInfo(ffa) == ffa;
    assert Lower("ffa") == "ffa";
    assert !Contains("ffa", "ctf") by {
      forall i | 0 <= i <= 3 ensures !("ctf" <= "ffa"[i..]) {
        assert "ffa"[i..] == [] || "ffa"[i..][0] != 'c';
      }
    }
  }

  // ---------------------------------------------------------------------------
  // The record

  class Server {
    const conn: Connection
    var status: Tag
    var info: map<string, Value>

    /** `Server.new(ip, port, {})`. */
    constructor (ip: string, port: nat)
      ensures conn == NewConnection(ip, port) && info == map[] && status == Unset
    {
      conn := NewConnection(ip, port);
      info := map[];
      status := Unset;
    }

    function UniqueIndex(): Identity {
      conn.UniqueIndex()
    }

    /** The peer address a connected socket of this server reports. */
    function Peer(): Address {
      Address(conn.ip, conn.port)
    }

    /** Sets the tag and returns the datagram `request_info_server` sends. */
    method RequestInfo() returns (payload: string)
      modifies this`status
      ensures status == Request && payload == InfoRequest
    {
      status := Request;
      payload := InfoRequest;
    }

    /** Sets the tag and returns the datagram `request_status_server` sends. */
    method RequestStatus() returns (payload: string)
      modifies this`status
      ensures status == Tag.RequestStatus && payload == StatusRequest
    {
      status := Tag.RequestStatus;
      payload := StatusRequest;
    }

    /** Replaces the info hash by what was read (or {}) and stamps it. A
        malformed reply raises after the tag is set, leaving the hash alone. */
    method ReadInfo(read: Option<string>, now: int) returns (r: Result<map<string, Value>>)
      requires read.Some? ==> |read.value| >= |InfoHeader|
      modifies this`status, this`info
      ensures status == Response
      ensures conn.ReadInfoServer(read).Err? ==> info == old(info) && r == Err(conn.ReadInfoServer(read).error)
      ensures conn.ReadInfoServer(read).Ok? ==> info == AfterReadInfo(conn.ReadInfoServer(read).value, now) && r == Ok(info)
    {
      status := Response;
      var got := conn.ReadInfoServer(read);
      if got.Err? {
        return Err(got.error);
      }
      info := AfterReadInfo(got.value, now);
      r := Ok(info);
    }

    /** Stores what was read (or {}) under `sv_status` and stamps it there. */
    method ReadStatus(read: Option<string>, now: int) returns (r: Result<map<string, Value>>)
      requires read.Some? ==> |read.value| >= |StatusHeader|
      modifies this`status, this`info
      ensures status == ResponseStatus
      ensures conn.ReadStatusServer(read).Err? ==> info == old(info) && r == Err(conn.ReadStatusServer(read).error)
      ensures conn.ReadStatusServer(read).Ok? ==>
                info == AfterReadStatus(old(info), conn.ReadStatusServer(read).value, now) && r == Ok(InfoStatus(info).entries)
    {
      status := ResponseStatus;
      var got := conn.ReadStatusServer(read);
      if got.Err? {
        return Err(got.error);
      }
      info := AfterReadStatus(info, got.value, now);
      r := Ok(InfoStatus(info).entries);
    }

    /** Sends `getstatus`, stores the reply like ReadStatus, and leaves the tag. */
    method RequestAndGetStatus(read: Option<string>, now: int) returns (payload: string, r: Result<map<string, Value>>)
      requires read.Some? ==> |read.value| >= |StatusHeader|
      modifies this`info
      ensures payload == StatusRequest
      ensures conn.ReadStatusServer(read).Err? ==> info == old(info) && r == Err(conn.ReadStatusServer(read).error)
      ensures conn.ReadStatusServer(read).Ok? ==>
                info == AfterReadStatus(old(info), conn.ReadStatusServer(read).value, now) && r == Ok(InfoStatus(info).entries)
    {
      payload := StatusRequest;
      var got := conn.ReadStatusServer(read);
      if got.Err? {
        r := Err(got.error);
        return;
      }
      info := AfterReadStatus(info, got.value, now);
      r := Ok(InfoStatus(info).entries);
    }

    /** Closing the socket is I/O; the `status = :destroyed` in the source
        assigns a local variable, so the record is left as it was. */
    method DestroySocket()
      ensures status == old(status) && info == old(info)
    {
    }

    /** `filter_info`: the answer, and the host-name rewrite it performs. */
    method FilterInfo(filter: map<string, string>) returns (r: Result<bool>)
      modifies this`info
      ensures r == FilterAccepts(old(info), filter)
      ensures info == FilterRewrite(old(info), filter)
    {
      if info == map[] {
        return Ok(false);
      }
      if filter == map[] {
        return Ok(true);
      }
      info := SanitizedInfo(info);
      if CriterionRaises(info, filter) {
        return Err(NotAString);
      }
      r := Ok(AnyCriterion(info, filter));
    }
  }
}

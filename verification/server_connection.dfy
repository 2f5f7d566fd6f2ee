/**
 * One game server's UDP endpoint: its textual identity ("ip:port" and the
 * digest of it), the two out-of-band request payloads, and the decoding of
 * the `infoResponse` and `statusResponse` datagrams into Ruby-style hashes.
 * Sockets, sending and receiving are not modelled: a receive attempt is an
 * `Option<string>` given to the read operations (None = nothing arrived).
 */
module ServerConnection {
  import opened TextUtil

  /** A UDP peer: dotted-quad (or host) text and port number. */
  datatype Address = Address(ip: string, port: nat)

  /** `Digest::MD5.hexdigest(text)`. The constructor stands for the digest as an
      injective function of its text; the hex encoding itself is not modelled. */
  datatype Identity = Md5Hex(text: string)

  /** A player line of a status reply; frags and ping are kept as the text tokens. */
  datatype Player = Player(name: string, frags: string, ping: string)

  /** A value of a server's info hash: a string from the wire, a timestamp
      (integer seconds), the player list, or the nested status hash. */
  datatype Value =
    | Str(s: string)
    | Stamp(secs: int)
    | Roster(players: seq<Player>)
    | Table(entries: map<string, Value>)

  datatype Option<T> = None | Some(value: T)

  /** The ways the Ruby code raises: `Hash[*tokens]` on an odd token count,
      `nil.split` when the status payload has no line at all, `nil[1..-2]`
      on a player line with fewer than three words, and `downcase` sent to an
      info value that is not a string (a stamp or the status hash), and `dig`
      into a `sv_status` that is not a hash. */
  datatype Error = OddTokenCount | MissingStatusLine | ShortPlayerLine | NotAString | NotAHash

  datatype Result<T> = Ok(value: T) | Err(error: Error)

  /** Four 0xFF bytes that start every connectionless datagram. */
  const OobMarker: string := ['\U{FF}', '\U{FF}', '\U{FF}', '\U{FF}']

  const InfoRequest: string := OobMarker + "getinfo xxx"
  const StatusRequest: string := OobMarker + "getstatus"

  const DefaultUrlMaps: string := "https://www.urbanterror.info/files/static/images/levels/wide/"

  /** Marker, the 12-byte tag "infoResponse", then a newline and a backslash. */
  const InfoHeader: string := OobMarker + "infoResponse\n\\"
  /** Marker, the 14-byte tag "statusResponse", then a newline and a backslash. */
  const StatusHeader: string := OobMarker + "statusResponse\n\\"

  lemma RequestFraming()
    ensures |OobMarker| == 4 && forall i :: 0 <= i < 4 ==> OobMarker[i] as int == 0xFF
    ensures InfoRequest[..4] == OobMarker && InfoRequest[4..] == "getinfo xxx"
    ensures StatusRequest[..4] == OobMarker && StatusRequest[4..] == "getstatus"
    ensures |InfoHeader| == 18 && |StatusHeader| == 20
  {
  }

  // ---------------------------------------------------------------------------
  // Hash[*tokens]

  /** Folds key/value pairs into a map; a later pair overwrites an earlier one. */
  function PairMap(ps: seq<(string, string)>): (m: map<string, string>)
    ensures m.Keys == set i | 0 <= i < |ps| :: ps[i].0
  {
    if |ps| == 0 then map[]
    else
      var m := PairMap(ps[..|ps| - 1]);
      var last := ps[|ps| - 1];
      assert forall i :: 0 <= i < |ps| - 1 ==> ps[..|ps| - 1][i] == ps[i];
      m[last.0 := last.1]
  }

  /** The wire order of pairs: k1, v1, k2, v2, ... */
  function Tokens(ps: seq<(string, string)>): (ts: seq<string>)
    ensures |ts| == 2 * |ps|
  {
    if |ps| == 0 then [] else Tokens(ps[..|ps| - 1]) + [ps[|ps| - 1].0, ps[|ps| - 1].1]
  }

  function ToPairs(ts: seq<string>): (ps: seq<(string, string)>)
    requires |ts| % 2 == 0
    ensures |ps| == |ts| / 2
  {
    if |ts| == 0 then [] else ToPairs(ts[..|ts| - 2]) + [(ts[|ts| - 2], ts[|ts| - 1])]
  }

  /** `Hash[*tokens]`: alternating keys and values; an odd count raises. */
  function HashFromTokens(ts: seq<string>): (r: Result<map<string, string>>)
    ensures r.Err? <==> |ts| % 2 == 1
    ensures r.Ok? ==> r.value.Keys == set i | 0 <= i < |ts| / 2 :: ts[2 * i]
  {
    if |ts| % 2 == 1 then Err(OddTokenCount)
    else
      var ps := ToPairs(ts);
      PairsOfTokens(ts);
      Ok(PairMap(ps))
  }

  lemma {:induction false} PairsOfTokens(ts: seq<string>)
    requires |ts| % 2 == 0
    ensures forall i :: 0 <= i < |ts| / 2 ==> ToPairs(ts)[i] == (ts[2 * i], ts[2 * i + 1])
  {
    if |ts| > 0 {
      PairsOfTokens(ts[..|ts| - 2]);
    }
  }

  lemma {:induction false} ToPairsOfTokens(ps: seq<(string, string)>)
    ensures ToPairs(Tokens(ps)) == ps
  {
    if |ps| > 0 {
      var ts := Tokens(ps);
      assert ts[..|ts| - 2] == Tokens(ps[..|ps| - 1]);
      ToPairsOfTokens(ps[..|ps| - 1]);
    }
  }

  /** The last pair with a given key decides its value: a duplicate key keeps
      the later value. */
  lemma {:induction false} PairMapLast(ps: seq<(string, string)>, i: nat)
    requires i < |ps|
    requires forall j :: i < j < |ps| ==> ps[j].0 != ps[i].0
    ensures ps[i].0 in PairMap(ps) && PairMap(ps)[ps[i].0] == ps[i].1
  {
    if i < |ps| - 1 {
      PairMapLast(ps[..|ps| - 1], i);
    }
  }

  /** Two values for one key: the hash holds the second. */
  lemma DuplicateKeyExample(k: string, v1: string, v2: string)
    ensures PairMap([(k, v1), (k, v2)]) == map[k := v2]
  {
    PairMapLast([(k, v1), (k, v2)], 1);
  }

  /** With distinct keys, every pair is found as written. */
  lemma {:induction false} PairMapDistinct(ps: seq<(string, string)>)
    requires forall i, j :: 0 <= i < j < |ps| ==> ps[i].0 != ps[j].0
    ensures forall i :: 0 <= i < |ps| ==> ps[i].0 in PairMap(ps) && PairMap(ps)[ps[i].0] == ps[i].1
  {
    forall i | 0 <= i < |ps|
      ensures ps[i].0 in PairMap(ps) && PairMap(ps)[ps[i].0] == ps[i].1
    {
      PairMapLast(ps, i);
    }
  }

  lemma {:induction false} TokensFree(ps: seq<(string, string)>, seps: set<char>)
    requires forall i :: 0 <= i < |ps| ==> Free(ps[i].0, seps) && Free(ps[i].1, seps)
    ensures forall i :: 0 <= i < |Tokens(ps)| ==> Free(Tokens(ps)[i], seps)
  {
    if |ps| > 0 {
      TokensFree(ps[..|ps| - 1], seps);
    }
  }

  lemma {:induction false} TokensLast(ps: seq<(string, string)>)
    requires |ps| > 0
    ensures Tokens(ps)[|Tokens(ps)| - 1] == ps[|ps| - 1].1
  {
  }

  // ---------------------------------------------------------------------------
  // The connection

  function Lift(m: map<string, string>): (r: map<string, Value>)
    ensures r.Keys == m.Keys && forall k :: k in m ==> r[k] == Str(m[k])
  {
    map k | k in m :: Str(m[k])
  }

  /** `name[1..-2]`: drops the first and the last character (the quotes). */
  function Unquote(name: string): (r: string)
    requires name != ""
    ensures |r| == |name| - 2 || (|name| == 1 && r == "")
    ensures |name| >= 2 ==> [name[0]] + r + [name[|name| - 1]] == name
  {
    if |name| >= 2 then name[1..|name| - 1] else ""
  }

  function ParsePlayer(line: string): (r: Result<Player>)
    ensures r.Err? <==> |Words(line)| < 3
  {
    var ws := Words(line);
    if |ws| < 3 then Err(ShortPlayerLine) else Ok(Player(Unquote(ws[2]), ws[0], ws[1]))
  }

  /** One player per line, in line order; the first bad line raises. */
  function ParsePlayers(lines: seq<string>): (r: Result<seq<Player>>)
    ensures r.Ok? ==> |r.value| == |lines|
    ensures r.Ok? ==> forall i :: 0 <= i < |lines| ==> ParsePlayer(lines[i]) == Ok(r.value[i])
    ensures r.Err? <==> exists i :: 0 <= i < |lines| && ParsePlayer(lines[i]).Err?
  {
    if |lines| == 0 then Ok([])
    else
      match ParsePlayer(lines[0])
      case Err(e) => Err(e)
      case Ok(p) =>
        match ParsePlayers(lines[1..])
        case Err(e) =>
          Err(e)
        case Ok(rest) =>
          assert forall i :: 1 <= i < |lines| ==> lines[i] == lines[1..][i - 1];
          Ok([p] + rest)
  }

  /** The players of a status reply are parsed from every line after the
      first, line i + 1 giving player i. */
  lemma {:induction false} PlayersAfterStatusLine(lines: seq<string>)
    requires 1 <= |lines|
    ensures var r := ParsePlayers(lines[1..]);
            (r.Err? <==> exists i :: 1 <= i < |lines| && ParsePlayer(lines[i]).Err?) &&
            (r.Ok? ==> |r.value| + 1 == |lines| &&
                       forall i :: 0 <= i < |r.value| ==> ParsePlayer(lines[i + 1]) == Ok(r.value[i]))
  {
    var r := ParsePlayers(lines[1..]);
    assert forall i :: 1 <= i < |lines| ==> lines[1..][i - 1] == lines[i];
    if r.Err? {
      var j :| 0 <= j < |lines[1..]| && ParsePlayer(lines[1..][j]).Err?;
      assert lines[j + 1] == lines[1..][j];
    }
  }

  datatype Connection = Connection(ip: string, port: nat, timeout: nat, urlMaps: string) {

    function ToS(): string {
      ip + ":" + Show(port)
    }

    function UniqueIndex(): Identity {
      Md5Hex(ToS())
    }

    function MapUrl(mapName: string): string {
      urlMaps + mapName + ".jpg"
    }

    /** Skips the 18-byte header and folds the backslash-separated rest into a
        hash, then adds `map_image_url` built from `mapname` (nil renders as ""). */
    function ParseSvInfo(packet: string): (r: Result<map<string, string>>)
      requires |packet| >= |InfoHeader|
      ensures r.Err? <==> |RubySplit(packet[18..], '\\')| % 2 == 1
      ensures r.Err? ==> r.error == OddTokenCount
      ensures var h := HashFromTokens(RubySplit(packet[18..], '\\'));
              r.Ok? ==> h.Ok? && r.value == h.value["map_image_url" := MapUrl(if "mapname" in h.value then h.value["mapname"] else "")]
      ensures r.Ok? ==> "map_image_url" in r.value && r.value.Keys == HashFromTokens(RubySplit(packet[18..], '\\')).value.Keys + {"map_image_url"}
    {
      match HashFromTokens(RubySplit(packet[18..], '\\'))
      case Err(e) => Err(e)
      case Ok(m) =>
        var mapName := if "mapname" in m then m["mapname"] else "";
        Ok(m["map_image_url" := MapUrl(mapName)])
    }

    /** Skips the 20-byte header, splits the rest into lines; the first line is
        the key/value hash and every later line one player, stored under
        `players`. */
    function ParseSvStatus(packet: string): (r: Result<map<string, Value>>)
      requires |packet| >= |StatusHeader|
      ensures var lines := RubySplit(packet[20..], '\n');
              r.Err? <==> |lines| == 0 || HashFromTokens(RubySplit(lines[0], '\\')).Err? ||
                          exists i :: 1 <= i < |lines| && ParsePlayer(lines[i]).Err?
      ensures |RubySplit(packet[20..], '\n')| == 0 ==> r == Err(MissingStatusLine)
      ensures r.Ok? ==> "players" in r.value && r.value["players"].Roster?
      ensures var lines := RubySplit(packet[20..], '\n');
              r.Ok? ==> var players := r.value["players"].players;
                        |players| + 1 == |lines| &&
                        (forall i :: 0 <= i < |players| ==> ParsePlayer(lines[i + 1]) == Ok(players[i])) &&
                        r.value == Lift(HashFromTokens(RubySplit(lines[0], '\\')).value)["players" := Roster(players)]
    {
      var lines := RubySplit(packet[20..], '\n');
      if |lines| == 0 then Err(MissingStatusLine)
      else
        PlayersAfterStatusLine(lines);
        match HashFromTokens(RubySplit(lines[0], '\\'))
        case Err(e) => Err(e)
        case Ok(fields) =>
          match ParsePlayers(lines[1..])
          case Err(e) => Err(e)
          case Ok(players) => Ok(Lift(fields)["players" := Roster(players)])
    }

    /** No datagram yields {}; otherwise the decoded info hash. */
    function ReadInfoServer(read: Option<string>): (r: Result<map<string, string>>)
      requires read.Some? ==> |read.value| >= |InfoHeader|
      ensures read.None? ==> r == Ok(map[])
      ensures read.Some? ==> r == ParseSvInfo(read.value)
    {
      if read.None? then Ok(map[]) else ParseSvInfo(read.value)
    }

    /** No datagram yields {}; otherwise the decoded status hash. */
    function ReadStatusServer(read: Option<string>): (r: Result<map<string, Value>>)
      requires read.Some? ==> |read.value| >= |StatusHeader|
      ensures read.None? ==> r == Ok(map[])
      ensures read.Some? ==> r == ParseSvStatus(read.value)
    {
      if read.None? then Ok(map[]) else ParseSvStatus(read.value)
    }
  }

  /** `ServerConnection.new(ip, port)`: timeout 1 and the default map-image URL. */
  function NewConnection(ip: string, port: nat): Connection {
    Connection(ip, port, 1, DefaultUrlMaps)
  }

  // ---------------------------------------------------------------------------
  // Identity

  lemma ShowFreeOfColon(n: nat)
    ensures Free(Show(n), {':'})
  {
    var s := Show(n);
    forall i | 0 <= i < |s| ensures s[i] !in {':'} {
      assert IsDigit(s[i]);
    }
  }

  /** The index of the last ':' in `s`, or -1 when there is none. */
  function LastColonIndex(s: string): int {
    if |s| == 0 then -1
    else if s[|s| - 1] == ':' then |s| - 1
    else LastColonIndex(s[..|s| - 1])
  }

  /** In "x:d" with a colon-free d, the last colon is the one after x. */
  lemma {:induction false} LastColonOf(x: string, d: string)
    requires Free(d, {':'})
    ensures LastColonIndex(x + ":" + d) == |x|
  {
    var s := x + ":" + d;
    if |d| > 0 {
      assert s[|s| - 1] == d[|d| - 1];
      assert s[..|s| - 1] == x + ":" + d[..|d| - 1];
      LastColonOf(x, d[..|d| - 1]);
    }
  }

  /** A text split at its last colon, with a colon-free tail, splits uniquely,
      whatever the head holds (an IPv6 literal included). */
  lemma {:induction false} LastColon(x: string, d: string, y: string, e: string)
    requires Free(d, {':'}) && Free(e, {':'})
    requires x + ":" + d == y + ":" + e
    ensures x == y && d == e
  {
    LastColonOf(x, d);
    LastColonOf(y, e);
    var s := x + ":" + d;
    assert x == s[..|x|] && y == s[..|y|];
    assert d == s[|x| + 1..] && e == s[|y| + 1..];
  }

  /** The identity depends on ip and port only, and distinct (ip, port) pairs
      get distinct identities, including pairs that differ only in the port. */
  lemma IdentityOfAddress(a: Connection, b: Connection)
    ensures a.UniqueIndex() == b.UniqueIndex() <==> a.ip == b.ip && a.port == b.port
  {
    if a.UniqueIndex() == b.UniqueIndex() {
      ShowFreeOfColon(a.port);
      ShowFreeOfColon(b.port);
      LastColon(a.ip, Show(a.port), b.ip, Show(b.port));
      ShowInjective(a.port, b.port);
    }
  }

  // ---------------------------------------------------------------------------
  // Encoders used to state the round trips

  function EncodeInfoResponse(ps: seq<(string, string)>): string {
    InfoHeader + Join(Tokens(ps), '\\')
  }

  function PlayerLine(p: Player): string {
    p.frags + " " + p.ping + " \"" + p.name + "\""
  }

  function PlayerLines(players: seq<Player>): (ls: seq<string>)
    ensures |ls| == |players| && forall i :: 0 <= i < |ls| ==> ls[i] == PlayerLine(players[i])
  {
    seq(|players|, i requires 0 <= i < |players| => PlayerLine(players[i]))
  }

  function EncodeStatusResponse(ps: seq<(string, string)>, players: seq<Player>): string {
    StatusHeader + Join([Join(Tokens(ps), '\\')] + PlayerLines(players), '\n')
  }

  /** Backslash-free pairs whose last value is not empty decode to the hash
      they were written from, plus `map_image_url`. */
  lemma {:induction false} InfoRoundTrip(c: Connection, ps: seq<(string, string)>)
    requires forall i :: 0 <= i < |ps| ==> Free(ps[i].0, {'\\'}) && Free(ps[i].1, {'\\'})
    requires |ps| == 0 || ps[|ps| - 1].1 != ""
    ensures var m := PairMap(ps);
            c.ParseSvInfo(EncodeInfoResponse(ps))
              == Ok(m["map_image_url" := c.MapUrl(if "mapname" in m then m["mapname"] else "")])
  {
    var packet := EncodeInfoResponse(ps);
    var ts := Tokens(ps);
    assert packet[18..] == Join(ts, '\\');
    assert RubySplit(packet[18..], '\\') == ts by {
      TokensFree(ps, {'\\'});
      if |ps| > 0 {
        TokensLast(ps);
      }
      RubySplitJoin(ts, '\\');
    }
    assert HashFromTokens(ts) == Ok(PairMap(ps)) by {
      ToPairsOfTokens(ps);
    }
  }

  /** With distinct keys every written pair is present in the decoded hash. */
  lemma {:induction false} InfoRoundTripDistinct(c: Connection, ps: seq<(string, string)>)
    requires forall i :: 0 <= i < |ps| ==> Free(ps[i].0, {'\\'}) && Free(ps[i].1, {'\\'})
    requires |ps| == 0 || ps[|ps| - 1].1 != ""
    requires forall i, j :: 0 <= i < j < |ps| ==> ps[i].0 != ps[j].0
    requires forall i :: 0 <= i < |ps| ==> ps[i].0 != "map_image_url"
    ensures var r := c.ParseSvInfo(EncodeInfoResponse(ps));
            r.Ok? && forall i :: 0 <= i < |ps| ==> ps[i].0 in r.value && r.value[ps[i].0] == ps[i].1
  {
    InfoRoundTrip(c, ps);
    PairMapDistinct(ps);
    var m := PairMap(ps);
    assert c.ParseSvInfo(EncodeInfoResponse(ps)).value
             == m["map_image_url" := c.MapUrl(if "mapname" in m then m["mapname"] else "")];
  }

  lemma FreeConcat(a: string, b: string, seps: set<char>)
    requires Free(a, seps) && Free(b, seps)
    ensures Free(a + b, seps)
  {
    assert forall i :: |a| <= i < |a + b| ==> (a + b)[i] == b[i - |a|];
  }

  lemma FreeSubset(s: string, seps: set<char>, fewer: set<char>)
    requires Free(s, seps) && fewer <= seps
    ensures Free(s, fewer)
  {
  }

  lemma {:induction false} JoinFree(ts: seq<string>, sep: char, seps: set<char>)
    requires sep !in seps
    requires forall i :: 0 <= i < |ts| ==> Free(ts[i], seps)
    ensures Free(Join(ts, sep), seps)
  {
    if |ts| > 1 {
      JoinFree(ts[1..], sep, seps);
      FreeConcat(ts[0], [sep], seps);
      FreeConcat(ts[0] + [sep], Join(ts[1..], sep), seps);
    }
  }

  /** A player written as `<frags> <ping> "<name>"` reads back as itself. */
  lemma PlayerRoundTrip(p: Player)
    requires p.frags != "" && p.ping != ""
    requires Free(p.frags, Whitespace) && Free(p.ping, Whitespace) && Free(p.name, Whitespace)
    ensures ParsePlayer(PlayerLine(p)) == Ok(p)
  {
    var quoted := "\"" + p.name + "\"";
    FreeConcat("\"", p.name, Whitespace);
    FreeConcat("\"" + p.name, "\"", Whitespace);
    assert PlayerLine(p) == p.frags + " " + p.ping + " " + quoted;
    WordsOfThree(p.frags, p.ping, quoted);
    assert quoted[1..|quoted| - 1] == p.name;
  }

  lemma {:induction false} PlayersRoundTrip(players: seq<Player>)
    requires forall i :: 0 <= i < |players| ==>
               players[i].frags != "" && players[i].ping != "" &&
               Free(players[i].frags, Whitespace) && Free(players[i].ping, Whitespace) &&
               Free(players[i].name, Whitespace)
    ensures ParsePlayers(PlayerLines(players)) == Ok(players)
  {
    var lines := PlayerLines(players);
    if |players| > 0 {
      PlayerRoundTrip(players[0]);
      assert lines[1..] == PlayerLines(players[1..]);
      PlayersRoundTrip(players[1..]);
      assert ParsePlayer(lines[0]) == Ok(players[0]);
      assert players == [players[0]] + players[1..];
    }
  }

  lemma PlayerLineFree(p: Player)
    requires Free(p.frags, Whitespace) && Free(p.ping, Whitespace) && Free(p.name, Whitespace)
    ensures Free(PlayerLine(p), {'\n'}) && PlayerLine(p) != ""
  {
    var nl: set<char> := {'\n'};
    FreeSubset(p.frags, Whitespace, nl);
    FreeSubset(p.ping, Whitespace, nl);
    FreeSubset(p.name, Whitespace, nl);
    FreeConcat(p.frags, " ", nl);
    FreeConcat(p.frags + " ", p.ping, nl);
    FreeConcat(p.frags + " " + p.ping, " \"", nl);
    FreeConcat(p.frags + " " + p.ping + " \"", p.name, nl);
    FreeConcat(p.frags + " " + p.ping + " \"" + p.name, "\"", nl);
  }

  lemma PlayerLinesFree(players: seq<Player>)
    requires forall i :: 0 <= i < |players| ==>
               Free(players[i].frags, Whitespace) && Free(players[i].ping, Whitespace) &&
               Free(players[i].name, Whitespace)
    ensures forall i :: 0 <= i < |players| ==>
              Free(PlayerLines(players)[i], {'\n'}) && PlayerLines(players)[i] != ""
  {
    forall p | p in players ensures Free(PlayerLine(p), {'\n'}) && PlayerLine(p) != "" {
      PlayerLineFree(p);
    }
  }

  lemma {:induction false} StatusLines(ps: seq<(string, string)>, players: seq<Player>)
    requires |ps| > 0 && ps[|ps| - 1].1 != ""
    requires forall i :: 0 <= i < |ps| ==> Free(ps[i].0, {'\\', '\n'}) && Free(ps[i].1, {'\\', '\n'})
    requires forall i :: 0 <= i < |players| ==>
               Free(players[i].frags, Whitespace) && Free(players[i].ping, Whitespace) &&
               Free(players[i].name, Whitespace)
    ensures RubySplit(EncodeStatusResponse(ps, players)[20..], '\n')
              == [Join(Tokens(ps), '\\')] + PlayerLines(players)
  {
    var ts := Tokens(ps);
    var first := Join(ts, '\\');
    var lines := [first] + PlayerLines(players);
    assert RubySplit(Join(lines, '\n'), '\n') == lines by {
      assert Free(first, {'\n'}) by {
        TokensFree(ps, {'\n'});
        JoinFree(ts, '\\', {'\n'});
      }
      assert first != "" by {
        assert |ts| >= 2;
      }
      PlayerLinesFree(players);
      SplitLines(first, PlayerLines(players));
    }
    assert EncodeStatusResponse(ps, players)[20..] == Join(lines, '\n');
  }

  /** A non-empty first line followed by non-empty lines, none holding a
      newline, splits back at the newlines into the same lines. */
  lemma {:induction false} SplitLines(first: string, rest: seq<string>)
    requires first != "" && Free(first, {'\n'})
    requires forall i :: 0 <= i < |rest| ==> Free(rest[i], {'\n'}) && rest[i] != ""
    ensures RubySplit(Join([first] + rest, '\n'), '\n') == [first] + rest
  {
    var lines := [first] + rest;
    forall i | 0 <= i < |lines|
      ensures Free(lines[i], {'\n'})
    {
      if i > 0 {
        assert lines[i] == rest[i - 1];
      }
    }
    assert lines[|lines| - 1] != "";
    RubySplitJoin(lines, '\n');
  }

  lemma {:induction false} StatusFields(ps: seq<(string, string)>)
    requires |ps| > 0 && ps[|ps| - 1].1 != ""
    requires forall i :: 0 <= i < |ps| ==> Free(ps[i].0, {'\\', '\n'}) && Free(ps[i].1, {'\\', '\n'})
    ensures HashFromTokens(RubySplit(Join(Tokens(ps), '\\'), '\\')) == Ok(PairMap(ps))
  {
    TokensFree(ps, {'\\'});
    TokensLast(ps);
    RubySplitJoin(Tokens(ps), '\\');
    ToPairsOfTokens(ps);
  }

  /** A status reply written from pairs and players decodes to the same pairs,
      each as a string value, and the players in line order under `players`. */
  lemma {:induction false} StatusRoundTrip(c: Connection, ps: seq<(string, string)>, players: seq<Player>)
    requires |ps| > 0 && ps[|ps| - 1].1 != ""
    requires forall i :: 0 <= i < |ps| ==> Free(ps[i].0, {'\\', '\n'}) && Free(ps[i].1, {'\\', '\n'})
    requires forall i :: 0 <= i < |players| ==>
               players[i].frags != "" && players[i].ping != "" &&
               Free(players[i].frags, Whitespace) && Free(players[i].ping, Whitespace) &&
               Free(players[i].name, Whitespace)
    ensures c.ParseSvStatus(EncodeStatusResponse(ps, players))
              == Ok(Lift(PairMap(ps))["players" := Roster(players)])
  {
    var lines := [Join(Tokens(ps), '\\')] + PlayerLines(players);
    StatusLines(ps, players);
    StatusFields(ps);
    assert lines[1..] == PlayerLines(players);
    PlayersRoundTrip(players);
  }

  /** A line of three or more words is a player built from the first three:
      any words after the third are dropped, and the third loses its first
      and last character whatever they are. */
  lemma PlayerFromWords(ts: seq<string>)
    requires 3 <= |ts|
    requires forall i :: 0 <= i < |ts| ==> ts[i] != "" && Free(ts[i], Whitespace)
    ensures ParsePlayer(Join(ts, ' ')) == Ok(Player(Unquote(ts[2]), ts[0], ts[1]))
  {
    WordsJoin(ts);
  }

  lemma AlphaLine()
    ensures ParsePlayer("5 42 \"Alpha\"") == Ok(Player("Alpha", "5", "42"))
  {
    var p := Player("Alpha", "5", "42");
    assert PlayerLine(p) == "5 42 \"Alpha\"";
    assert Free("Alpha", Whitespace) && Free("5", Whitespace) && Free("42", Whitespace);
    PlayerRoundTrip(p);
  }

  /** A player name with a space is cut at the space and loses its first and
      last character: `5 42 "Big Boss"` gives the name Bi. */
  lemma SpacedNameExample()
    ensures ParsePlayer("5 42 \"Big Boss\"") == Ok(Player("Bi", "5", "42"))
  {
    var ts := ["5", "42", "\"Big", "Boss\""];
    assert Join(ts, ' ') == "5 42 \"Big Boss\"" by {
      assert ts[1..] == ["42", "\"Big", "Boss\""];
      assert ts[1..][1..] == ["\"Big", "Boss\""];
      assert ts[1..][1..][1..] == ["Boss\""];
    }
    assert forall i :: 0 <= i < |ts| ==> ts[i] != "" && Free(ts[i], Whitespace);
    PlayerFromWords(ts);
    assert Unquote("\"Big") == "Bi";
  }
}

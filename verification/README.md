# q3_servers, modelled in Dafny

q3_servers is a Ruby browser for Quake III / Urban Terror game servers. It asks the
master server for the list of game servers and decodes the list from 7-byte records:
a big-endian IPv4 address, a big-endian port and a separator. It then sends each game
server a connectionless `getinfo` request. The request starts with four 0xFF bytes.
Replies arrive over a multiplexed poll and are matched to their servers through an
identity derived from "ip:port". The browser parses the `infoResponse` and
`statusResponse` payloads into hashes. It keeps cache timestamps and filters servers
by case-insensitive criteria.

The model has five modules:

- `TextUtil` (`text.dfy`) covers the Ruby string operations the code relies on:
  - decimal rendering;
  - `String#split` with a separator and on whitespace;
  - `Array#join`;
  - ASCII `downcase`;
  - literal substring search.
- `ServerConnection` (`server_connection.rb` → `server_connection.dfy`) covers:
  - the request payloads;
  - the response parsers, with their error cases as a `Result`;
  - `map_url`;
  - the `ip:port` identity;
  - round-trip lemmas from an encoder of well-formed responses to the parsers.
- `ServerRecord` (`server.rb` → `server.dfy`) covers:
  - the colour-code stripping;
  - the game-type table;
  - the filter;
  - the info-hash rewrites of each read step;
  - a `Server` class whose methods set the state tag and rewrite `info` in place.
- `Massive` (`massive_helper.rb` → `massive_helper.dfy`) covers:
  - the identity hash, built by a loop;
  - the `read_info` poll loop, proved against a specification of the poll schedule.
- `ServerList` (`list.rb` → `list.dfy`) covers:
  - master-fragment decoding and `to_ip`, with their inverses;
  - the fragment-collection stop rule;
  - the cache predicates;
  - a `List` class whose methods append servers and favourites in place and refresh the list from the master.

Time is integer seconds. `Rational(secs, 86_400)` days added to a `DateTime` is
exactly `secs` seconds. Digest::MD5 is the injective constructor `Md5Hex` applied to
the "ip:port" text. Each read result is an input: a datagram or nothing. So is each
master fragment, and each poll round's set of ready peers.

Where the design description and the code disagree, the model follows the code:

- A master refresh clears `servers` and never adds the favourites back
  (`fill_list_favorites` is never called). `List.ServersListFromMaster` states that
  afterwards `servers` holds exactly the decoded master entries.
- Every poll round waits on the full socket list; answered sockets are not removed.
- `destroy_socket` assigns a local variable, so the server's state tag is unchanged.
- A malformed response (odd number of key/value tokens, a missing status line, a player
  line with fewer than three words) raises in Ruby. Here it is an `Err` result; the read
  method has already set the tag and leaves `info` as it was.
- `filter_info` raises when a criterion names an info key whose value is not a string
  (`updated_at`, `sv_status`). Here it is an `Err(NotAString)` result; the host name
  has already been sanitized.
- An info reply may carry a `sv_status` key of its own. `read_info` then leaves a string
  under `sv_status`: `info_status?` holds when it is non-empty, and `status_updated_at`
  raises TypeError from `dig`. Here `StatusUpdatedAt` gives `Err(NotAHash)`, and
  `StatusCached` passes that error on when caching is on.

## Model

| member | source | states |
|---|---|---|
| TextUtil.ParseShow | lib/q3_servers/server_connection.rb:17-19 | the decimal rendering of a port is read back as the same number |
| TextUtil.ShowInjective | lib/q3_servers/server_connection.rb:17-19 | different ports render as different decimal texts |
| TextUtil.RubySplitJoin | lib/q3_servers/server_connection.rb:89 | `split(sep)` undoes `join(sep)` when no field holds the separator and the last field is non-empty |
| TextUtil.WordsOfThree | lib/q3_servers/server_connection.rb:106 | three non-empty whitespace-free words joined by spaces split back into those three words |
| TextUtil.WordsJoin | lib/q3_servers/server_connection.rb:106 | any non-empty list of non-empty whitespace-free words joined by spaces splits back into that list |
| ServerConnection.RequestFraming | lib/q3_servers/server_connection.rb:37-40 | the info request is four 0xFF bytes then "getinfo xxx"; the status request is the marker then "getstatus"; the info header is 18 bytes and the status header 20 |
| ServerConnection.PairMap | lib/q3_servers/server_connection.rb:89 | the hash built from pairs has exactly the pairs' keys |
| ServerConnection.HashFromTokens | lib/q3_servers/server_connection.rb:89 | `Hash[*tokens]` fails exactly when the token count is odd; otherwise its keys are the even-position tokens |
| ServerConnection.PairsOfTokens | lib/q3_servers/server_connection.rb:89 | pair i is tokens 2i and 2i+1 |
| ServerConnection.ToPairsOfTokens | lib/q3_servers/server_connection.rb:89 | pairing the flattened tokens of a pair list gives that list back |
| ServerConnection.PairMapLast | lib/q3_servers/server_connection.rb:89 | the last pair with a given key decides that key's value |
| ServerConnection.DuplicateKeyExample | lib/q3_servers/server_connection.rb:89 | two values for one key leave the hash holding the second |
| ServerConnection.PairMapDistinct | lib/q3_servers/server_connection.rb:89 | with distinct keys, each pair's value is what the hash holds for its key |
| ServerConnection.Unquote | lib/q3_servers/server_connection.rb:107 | `name[1..-2]` drops the first and last character (a one-character name gives "") |
| ServerConnection.ParsePlayer | lib/q3_servers/server_connection.rb:104-108 | a player line fails exactly when it has fewer than three whitespace-separated words |
| ServerConnection.ParsePlayers | lib/q3_servers/server_connection.rb:104-109 | one player per line, in line order; fails exactly when some line fails |
| ServerConnection.AlphaLine | lib/q3_servers/server_connection.rb:104-108 | `5 42 "Alpha"` gives name Alpha, frags "5", ping "42" |
| ServerConnection.PlayerFromWords | lib/q3_servers/server_connection.rb:104-108 | a line of three or more non-empty, whitespace-free words separated by single spaces gives frags = first word, ping = second, name = third word minus its first and last character; later words are ignored |
| ServerConnection.SpacedNameExample | lib/q3_servers/server_connection.rb:104-108 | a quoted name with a space is cut at the space and trimmed: `5 42 "Big Boss"` gives the name Bi |
| ServerConnection.PlayerRoundTrip | lib/q3_servers/server_connection.rb:104-108 | a rendered player line with whitespace-free fields parses back to that player |
| ServerConnection.PlayersRoundTrip | lib/q3_servers/server_connection.rb:104-109 | rendered player lines parse back to the same player list |
| ServerConnection.Connection.ParseSvInfo | lib/q3_servers/server_connection.rb:87-93 | skips 18 bytes; fails (odd token count) exactly when the backslash split of the rest has an odd number of tokens; otherwise the result is the `Hash[]` of those tokens with `map_image_url` set to `MapUrl` (`url_maps` + `mapname` + ".jpg", "" for a missing `mapname`), and no other key |
| ServerConnection.Connection.ParseSvStatus | lib/q3_servers/server_connection.rb:95-102 | skips 20 bytes and splits the rest into lines; fails exactly when there is no line, the first line has an odd token count, or some later line is a short player line; otherwise the result is the hash of the first line's pairs plus `players`, whose player i is the parse of line i+1 |
| ServerConnection.Connection.ReadInfoServer | lib/q3_servers/server_connection.rb:43-46 | nothing read gives {}; a datagram gives its parse |
| ServerConnection.Connection.ReadStatusServer | lib/q3_servers/server_connection.rb:62-65 | nothing read gives {}; a datagram gives its parse |
| ServerConnection.IdentityOfAddress | lib/q3_servers/server_connection.rb:17-23 | `Connection.UniqueIndex`, the digest of `Connection.ToS` ("ip:port"), is equal for two connections if and only if they have the same ip and port, for any ip text (an IPv6 literal included) |
| ServerConnection.LastColon | lib/q3_servers/server_connection.rb:17-19 | "ip:port" text splits uniquely at its last colon, since the port's digits hold none |
| ServerConnection.InfoRoundTrip | lib/q3_servers/server_connection.rb:87-93 | an info response written from backslash-free pairs parses to the hash of those pairs plus `map_image_url` built from `mapname` |
| ServerConnection.InfoRoundTripDistinct | lib/q3_servers/server_connection.rb:87-93 | with distinct keys, every written pair is in the parsed hash |
| ServerConnection.StatusLines | lib/q3_servers/server_connection.rb:97 | the newline split of a written status payload is the key/value line followed by the player lines |
| ServerConnection.StatusFields | lib/q3_servers/server_connection.rb:98 | the first status line folds back into the hash of its pairs |
| ServerConnection.StatusRoundTrip | lib/q3_servers/server_connection.rb:95-102 | a written status response parses to the hash of its pairs plus `players` holding the written players in order |
| ServerRecord.StripColors | lib/q3_servers/server.rb:15-17 | removing colour codes never lengthens the name |
| ServerRecord.StripColorsAppend | lib/q3_servers/server.rb:15-17 | stripping distributes over a concatenation whose left part does not end in '^' |
| ServerRecord.DropColourCode | lib/q3_servers/server.rb:15-17 | a leading '^' and digit are removed |
| ServerRecord.StripColorsTwoCodes | lib/q3_servers/server.rb:15-17 | "^1Foo^7Bar" style names lose both codes and keep the text |
| ServerRecord.StripColorsNotIdempotent | lib/q3_servers/server.rb:15-17 | "^^12" becomes "^2", which strips again to "": the removal is one left-to-right pass |
| ServerRecord.ColourFree | lib/q3_servers/server.rb:15-17 | a name without '^' is unchanged |
| ServerRecord.GameType | lib/q3_servers/server.rb:19-21 | each name comes from exactly its code: '0' is FFA, '4' TS, '7' CTF and '9' JMP; anything else or a missing key gives "" |
| ServerRecord.AfterReadInfo | lib/q3_servers/server.rb:44-49 | the read hash replaces everything and is stamped (`UpdatedAt` is the read time), so info is non-empty; without a `sv_status` key in the reply `InfoStatus` is {}; with one it is that string, `HasInfoStatus` (`info_status?`) holds exactly when it is non-empty, and `StatusUpdatedAt` raises |
| ServerRecord.AfterReadStatus | lib/q3_servers/server.rb:51-56 | the read hash is stored under `sv_status` with its own stamp (`StatusUpdatedAt` is the read time); the other keys are unchanged and the status counts as present |
| ServerRecord.SanitizedInfo | lib/q3_servers/server.rb:27 | only `hostname` changes, to its colour-stripped form |
| ServerRecord.FilterAccepts | lib/q3_servers/server.rb:23-30 | empty info rejects; an empty filter accepts non-empty info; otherwise it raises exactly when some criterion key holds a non-string value, and else accepts if and only if some criterion key is present and its lowercased value contains the lowercased criterion |
| ServerRecord.FilterRewrite | lib/q3_servers/server.rb:27 | the filter leaves every key but `hostname` unchanged, and changes nothing on the early returns |
| ServerRecord.FilterGametypeExample | lib/q3_servers/server.rb:28-29 | gametype "CTF" matches the criterion "ctf" and "ffa" does not |
| ServerRecord.FilterStampExample | lib/q3_servers/server.rb:28-29 | a criterion on the `updated_at` stamp raises, since the stamp is not a string |
| ServerRecord.Server.constructor | lib/q3_servers/server.rb:10-13 | a new server has the connection for (ip, port) and empty info |
| ServerRecord.Server.RequestInfo | lib/q3_servers/server.rb:32-36 | the tag becomes request and the info request is sent |
| ServerRecord.Server.RequestStatus | lib/q3_servers/server.rb:38-42 | the tag becomes request_status and the status request is sent |
| ServerRecord.Server.ReadInfo | lib/q3_servers/server.rb:44-49 | the tag becomes response; info becomes the stamped read hash, or is unchanged when the parse fails |
| ServerRecord.Server.ReadStatus | lib/q3_servers/server.rb:51-56 | the tag becomes response_status; the read hash is stored under `sv_status` and returned |
| ServerRecord.Server.RequestAndGetStatus | lib/q3_servers/server.rb:58-62 | sends the status request and stores the reply under `sv_status`, leaving the tag alone |
| ServerRecord.Server.DestroySocket | lib/q3_servers/server.rb:72-75 | neither the tag nor info changes |
| ServerRecord.Server.FilterInfo | lib/q3_servers/server.rb:23-30 | returns the filter's answer or its error, and leaves info rewritten as the filter does (the rewrite happens before the raise) |
| Massive.RoundsFrom | lib/q3_servers/massive_helper.rb:28-29 | the loop polls consecutive rounds while the break guard is false, and stops at the first round where it is true |
| Massive.ReadyPeers | lib/q3_servers/massive_helper.rb:34-39 | the ready sockets over the rounds so far number `sockets_completed` |
| Massive.PollBounded | lib/q3_servers/massive_helper.rb:28 | at most one round per socket; no round with zero sockets or zero retries |
| Massive.PollStopsWhenAllAnswered | lib/q3_servers/massive_helper.rb:29 | once every socket has answered, no further round is polled |
| Massive.PollStopReason | lib/q3_servers/massive_helper.rb:29-43 | an early stop means every socket answered, or the last `max_retries` rounds were empty |
| Massive.EmptyStreakSpan | lib/q3_servers/massive_helper.rb:32-43 | the retry counter counts exactly the trailing empty rounds: the counted rounds are empty and the round before them, if any, had a ready socket |
| Massive.SilentRounds | lib/q3_servers/massive_helper.rb:40-43 | if nothing answers, nothing completes and every round adds a retry |
| Massive.PollSilent | lib/q3_servers/massive_helper.rb:28-43 | if nothing answers, exactly min(max_retries, size) rounds run and no block is called |
| Massive.PollSilentTwoRetries | lib/q3_servers/massive_helper.rb:28-43 | with two retries and no answers, min(2, size) rounds run |
| Massive.CalculateIndexOfPeer | lib/q3_servers/massive_helper.rb:48-52 | `CalculateIndex` of a server's peer address is the server's own identity |
| Massive.IdentityMap | lib/q3_servers/massive_helper.rb:9-11 | the hash has one key per distinct identity in the list, and each key maps to a server with that identity |
| Massive.IdentityMapLaterWins | lib/q3_servers/massive_helper.rb:9-11 | of servers sharing an identity, the last one is kept |
| Massive.FirstOccurrences | lib/q3_servers/massive_helper.rb:9-11 | the hash's key order lists each identity once, in order of first insertion |
| Massive.InsertStep | lib/q3_servers/massive_helper.rb:9-11 | one more server overwrites its identity's entry and adds the key at the end only when it is new |
| Massive.KeysInOrder | lib/q3_servers/massive_helper.rb:9-11 | the ordered keys are exactly the hash's keys |
| Massive.BuildIdentityHash | lib/q3_servers/massive_helper.rb:9-11 | the `each_with_object` loop builds the identity hash and its key order |
| Massive.MassiveHelper.constructor | lib/q3_servers/massive_helper.rb:7-12 | the helper holds the identity hash of the given servers |
| Massive.MassiveHelper.Lookup | lib/q3_servers/massive_helper.rb:36 | the server found for a peer has that peer's identity; nil if and only if no server has it |
| Massive.MassiveHelper.LookupStored | lib/q3_servers/massive_helper.rb:36 | a server stored under its identity is found from its own peer address |
| Massive.MassiveHelper.Dispatch | lib/q3_servers/massive_helper.rb:34-39 | one looked-up server per ready peer, in order |
| Massive.MassiveHelper.HandleReady | lib/q3_servers/massive_helper.rb:34-39 | the ready sockets of a round each hand the block their server, in order |
| Massive.MassiveHelper.ReadInfo | lib/q3_servers/massive_helper.rb:24-46 | the loop returns the servers of every ready socket of every polled round, in callback order; the polled rounds are those of the poll schedule, so its length is `sockets_completed` |
| Massive.MassiveHelper.ReadInfoServers | lib/q3_servers/massive_helper.rb:14-17 | polls one socket per hash entry |
| Massive.MassiveHelper.ReadStatusServers | lib/q3_servers/massive_helper.rb:19-22 | polls the sockets of the given servers and matches replies through the hash |
| Massive.ReplyReachesSender | lib/q3_servers/massive_helper.rb:48-52 | a reply from a server's address reaches that server unless a later server shares its identity |
| ServerList.MasterQueryText | lib/q3_servers/list.rb:182-189 | the master query is four 0xFF bytes then "getservers 68 full empty" |
| ServerList.BE32 | lib/q3_servers/list.rb:99 | the `N` field is below 2^32 |
| ServerList.BE16 | lib/q3_servers/list.rb:99 | the `n` field is below 2^16 |
| ServerList.ParseIp | lib/q3_servers/list.rb:148-150 | a dotted quad reads back as a value below 2^32 |
| ServerList.OctetsOfBE32 | lib/q3_servers/list.rb:148-150 | the four octets of the packed value are the four big-endian bytes |
| ServerList.ToIpOfOctets | lib/q3_servers/list.rb:148-150 | `to_ip` of a big-endian value is its four bytes in decimal joined by '.', most significant first |
| ServerList.DottedStep | lib/q3_servers/list.rb:148-150 | rendering peels the least significant octet off last |
| ServerList.ParseDottedQuad | lib/q3_servers/list.rb:148-150 | the dotted quad of four bytes reads back as their big-endian value |
| ServerList.IpRoundTrip | lib/q3_servers/list.rb:148-150 | `ToIp` (`to_ip`) of n reads back as n |
| ServerList.ToIpInjective | lib/q3_servers/list.rb:148-150 | distinct 32-bit values render as distinct dotted quads |
| ServerList.ToIpExample | lib/q3_servers/list.rb:148-150 | 0x0A000001 renders as "10.0.0.1" |
| ServerList.DottedQuadExample | lib/q3_servers/list.rb:148-150 | single-digit octets render as d.d.d.d |
| ServerList.RecordEntry | lib/q3_servers/list.rb:99 | a record's address fits 32 bits and its port 16 bits |
| ServerList.AddressesAt | lib/q3_servers/list.rb:100 | server i gets `to_ip` of record i's address and its port |
| ServerList.AddressesAppend | lib/q3_servers/list.rb:98-103 | the addresses of concatenated records are the concatenated addresses |
| ServerList.DecodeRecords | lib/q3_servers/list.rb:98-103 | 7k bytes give exactly k records |
| ServerList.DecodeRecordsAt | lib/q3_servers/list.rb:98-103 | record i is read from byte 7i |
| ServerList.DecodeRecordsAppend | lib/q3_servers/list.rb:98-103 | decoding distributes over concatenation at record boundaries |
| ServerList.DecodeFragment | lib/q3_servers/list.rb:96-97 | after the 23-byte header a payload of 7k bytes gives k records |
| ServerList.EncodeRecords | lib/q3_servers/list.rb:99 | records are written in 7 bytes each |
| ServerList.RecordRoundTrip | lib/q3_servers/list.rb:99 | a written record reads back as itself, whatever follows it |
| ServerList.RecordsRoundTrip | lib/q3_servers/list.rb:98-103 | written records decode back to the same records in wire order |
| ServerList.TwoRecordsExample | lib/q3_servers/list.rb:95-105 | a fragment with two records yields servers 1.2.3.4:27960 and 5.6.7.8:27961 in that order |
| ServerList.FirstShort | lib/q3_servers/list.rb:134-139 | finds the first fragment shorter than 1394 bytes; all before it are at least that long |
| ServerList.CollectedStopsAtShort | lib/q3_servers/list.rb:133-139 | collection keeps every fragment up to and including the first short one, in arrival order |
| ServerList.MasterEntries | lib/q3_servers/list.rb:140 | every decoded entry of the collected fragments has a 32-bit address and 16-bit port |
| ServerList.FilledAllFragments | lib/q3_servers/list.rb:140 | filling from every fragment in turn lists the entries of all fragments in order |
| ServerList.FilledAddressesAll | lib/q3_servers/list.rb:140 | after n fragments the list holds the entries of the first n fragments in order |
| ServerList.MasterOutdatedBoundary | lib/q3_servers/list.rb:152-154 | `MasterOutdated` (`master_server_outdated?`): never fetched is outdated; at exactly fetched_at + ttl the list is fresh, one second later it is outdated |
| ServerList.InfoCachedWithin | lib/q3_servers/list.rb:156-158 | `InfoCached` (`cached_info?`, through `InfoOutdated`) holds if and only if the cache is on, info is present (`HasInfo`, `info?`) and now ≤ its stamp (`UpdatedAt`) + ttl |
| ServerList.StatusCachedWithin | lib/q3_servers/list.rb:160-162 | `StatusCached` (`cached_status?`, through `StatusOutdated`) raises exactly when the cache is on, a status is present (`HasInfoStatus`, `info_status?`) and `InfoStatus` is not a hash; otherwise it holds if and only if the cache is on, a status is present and now ≤ the status stamp (`StatusUpdatedAt`) + ttl |
| ServerList.InfoCachedAfterRead | lib/q3_servers/list.rb:46-48 | after a read at t, cached info holds if and only if the cache is on and now ≤ t + ttl |
| ServerList.StatusCachedAfterRead | lib/q3_servers/list.rb:50-52 | after a status read at t, cached status answers without raising, and holds if and only if the cache is on and now ≤ t + ttl |
| ServerList.InfoReplyWithStatusKey | lib/q3_servers/list.rb:50-52 | after an info reply carrying a non-empty `sv_status` key, a status counts as present and `cached_status?` raises with caching on (and is false with it off) |
| ServerList.FreshnessExample | lib/q3_servers/list.rb:46-48 | with a 60-second TTL, info read at T is cached at T+30 and stale at T+90 |
| ServerList.AnyFavorite | lib/q3_servers/list.rb:63-65 | `favorite?` (`List.IsFavorite`) holds if and only if some favourite has an equal identity |
| ServerList.UnpackFragment | lib/q3_servers/list.rb:96-103 | the record loop yields the fragment's decoded records |
| ServerList.List.constructor | lib/q3_servers/list.rb:17-30 | empty lists, cache on, timeout 1, TTLs 600 and 60, never fetched, master address and port 27900 |
| ServerList.List.AddServer | lib/q3_servers/list.rb:54-56 | appends the server and keeps the earlier ones |
| ServerList.List.AddFavorite | lib/q3_servers/list.rb:58-61 | a new server for (ip, port) with empty info is appended to both lists and is a favourite; the server list is returned |
| ServerList.List.FillListMaster | lib/q3_servers/list.rb:95-105 | appends one new server per record, in wire order, with the record's dotted-quad ip and port; earlier servers are untouched |
| ServerList.List.AppendServers | lib/q3_servers/list.rb:98-103 | appends one new server per address, in order, keeping the earlier ones |
| ServerList.List.FillAll | lib/q3_servers/list.rb:140 | filling an empty list from each fragment lists the servers of all fragments in order |
| ServerList.List.ReceiveFragments | lib/q3_servers/list.rb:133-139 | the datagrams read are exactly those up to and including the first one shorter than 1394 bytes: every earlier one is full-size and the last is short |
| ServerList.List.ServersListFromMaster | lib/q3_servers/list.rb:129-142 | sends the master query; unless only favourites, `servers` ends as exactly the decoded entries of the collected fragments (favourites are not kept); stamps the fetch time |
| ServerList.List.RefreshIfDue | lib/q3_servers/list.rb:32-33 | refreshes if and only if the master list is outdated and not only favourites; otherwise nothing changes; after a refresh the master list is fresh (with only favourites an outdated list stays outdated) |

## Left out

- Sockets, `IO.select`, `recvfrom`, `connect`, `send_data` and `read_data` are I/O. Replies, master fragments and the per-round ready peers are inputs. A sent request is the returned payload.
- Blocking on `recvfrom` is not modelled. The collection loop's input must contain a fragment shorter than 1394 bytes, so that the loop ends.
- Thread mode (`thread_server_info`, `get_server_info_status_filter`, the `join` in `fetch_info_servers`) is concurrency.
- `fetch_info_servers`, `cache_or_request_server_info`, `request_server_info`, `massive_read_info_status` and `destroy_socket_servers` only chain the modelled operations over sockets. They are not modelled as a whole.
- `fill_list_favorites` is never called, so it is not modelled.
- Digest::MD5 is an injective constructor of the "ip:port" text, not the hash function.
- `DateTime.now` is an integer number of seconds passed in.
- `filter_info` interpolates the criterion into a regular expression. It is modelled as a literal, case-insensitive substring search, so criteria with regular-expression metacharacters are not modelled.
- `unpack` on truncated input is excluded by preconditions:
  - info and status datagrams shorter than their headers;
  - master fragments whose payload is not a whole number of 7-byte records, including the trailing "EOT" marker some masters send.
- A master fragment no longer than its 23-byte header gives no servers.
- `pack('N')` keeps only the low 32 bits. Master records are always below 2^32, so `ToIp` requires that bound.
- Ruby's `Player` class is not part of this model. A player is a (name, frags, ping) triple.
- Logging, `print_debug` and `puts` are output only.
- The `info` argument of `Server.new` is always `{}` at its call sites, so the constructor starts with empty info.
- `Server.status_updated_at` and `updated_at` are optional integer stamps. The cache predicates require them whenever `info` or a `sv_status` hash is non-empty (Ruby would raise on a missing one). `read_info` stamps `updated_at` and `read_status` stamps the status. A status read on a server whose info was never read leaves non-empty info without `updated_at`; the browser reads status only for servers that passed `filter_info` after an info read.
- The per-round socket timeout is not modelled. A round past the end of the ready-peer input is a timeout.
- ServerList.List.ServersListFromMaster: does not state that the listed servers are newly allocated (FillListMaster and AppendServers do).
- ServerList.List.FillAll: does not state that the listed servers are newly allocated (FillListMaster and AppendServers do).
- ServerRecord.EmptyValue: counts a stamp as not empty, where Ruby's `empty?` on a DateTime would raise; no operation stores a stamp under `sv_status`.
- ServerRecord.FilterAccepts: lowercases the info value and the criterion in ASCII only; Ruby's `downcase` of a UTF-8 criterion also folds non-ASCII letters.
- Massive.CalculateIndexOfPeer: assumes the socket's peer address (`peeraddr(false)`) is the ip text the server was configured with. A server added by host name, or by a non-canonical quad such as "127.1", reports its numeric address instead; its reply is then looked up as nil and the block receives nil.
- Massive.MassiveHelper.LookupStored: the same assumption that the peer address is the configured ip text.
- Massive.ReplyReachesSender: the same assumption that the peer address is the configured ip text.
- Massive.MassiveHelper.ReadInfo: assumes the block returns normally. In Ruby a block that raises, such as `server.read_info` on a malformed reply or on a nil server, ends `read_info` and the whole fetch early.
- ServerRecord.StripColors: its own contract states only that the name never grows. What the removal does is stated by StripColorsAppend, DropColourCode, StripColorsTwoCodes, ColourFree and StripColorsNotIdempotent.

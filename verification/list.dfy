/**
 * The server list: the master-server query and the decoding of its
 * fragmented reply into servers, the cache-freshness rules, favourites, and
 * the decision to refresh from the master.
 *
 * Master fragments are byte strings. Sockets are replaced by inputs: the
 * datagrams the master socket would deliver, in arrival order, and the
 * current time in whole seconds (`DateTime.now`; a Rational(secs, 86400) of
 * a day is `secs` seconds).
 */
module ServerList {
  import opened TextUtil
  import opened ServerConnection
  import opened ServerRecord

  type byte = b: int | 0 <= b < 256

  const Protocol: nat := 68
  /** A fragment shorter than this is the master's last one. */
  const ShortFragment: nat := 1394
  /** Marker (4), `getserversResponse` (18) and the first separator (1). */
  const MasterHeaderLength: nat := 23
  /** Big-endian IPv4 address (4), big-endian port (2), separator (1). */
  const RecordLength: nat := 7
  const Separator: byte := 92

  /** The datagram `connect_request_master_socket` sends. */
  const MasterQuery: string := OobMarker + "getservers " + Show(Protocol) + " full empty"

  lemma MasterQueryText()
    ensures MasterQuery == OobMarker + "getservers 68 full empty"
  {
    assert Show(68) == Show(6) + [DigitChar(8)];
  }

  // ---------------------------------------------------------------------------
  // Addresses

  function BE32(b0: byte, b1: byte, b2: byte, b3: byte): (n: nat)
    ensures n < 0x1_0000_0000
  {
    b0 * 0x100_0000 + b1 * 0x1_0000 + b2 * 0x100 + b3
  }

  function BE16(b0: byte, b1: byte): (n: nat)
    ensures n < 0x1_0000
  {
    b0 * 0x100 + b1
  }

  /** `[n].pack('N').unpack('CCCC').join('.')`. */
  function ToIp(n: nat): string
    requires n < 0x1_0000_0000
  {
    DottedOctets(n, 4)
  }

  /** The low `k` octets of `n` in decimal, most significant first, with a dot
      between neighbours. */
  function DottedOctets(n: nat, k: nat): string
    requires k >= 1
  {
    if k == 1 then Show(n % 0x100) else DottedOctets(n / 0x100, k - 1) + "." + Show(n % 0x100)
  }

  /** The dotted quad read back: four decimal octets, most significant first. */
  function ParseIp(ip: string): (r: Option<nat>)
    ensures r.Some? ==> r.value < 0x1_0000_0000
  {
    var fs := RubySplit(ip, '.');
    if |fs| == 4 && forall i :: 0 <= i < 4 ==> fs[i] != "" && AllDigits(fs[i]) && ParseNat(fs[i]) < 0x100 then
      Some(ParseNat(fs[0]) * 0x100_0000 + ParseNat(fs[1]) * 0x1_0000 + ParseNat(fs[2]) * 0x100 + ParseNat(fs[3]))
    else None
  }

  /** The four octets `to_ip` prints are each below 256 and recompose n. */
  lemma Octets(n: nat)
    requires n < 0x1_0000_0000
    ensures n / 0x100_0000 < 0x100
    ensures n / 0x100_0000 * 0x100_0000 + n / 0x1_0000 % 0x100 * 0x1_0000 + n / 0x100 % 0x100 * 0x100 + n % 0x100 == n
  {
  }

  lemma DivMod(n: int, m: int, q: int, r: int)
    requires 0 < m && 0 <= r < m && n == q * m + r
    ensures n / m == q && n % m == r
  {
    var q', r' := n / m, n % m;
    assert q' * m + r' == n;
    if q' < q {
      assert (q - q') * m == q * m - q' * m;
      MulAtLeast(q - q', m);
      assert false;
    } else if q < q' {
      assert (q' - q) * m == q' * m - q * m;
      MulAtLeast(q' - q, m);
      assert false;
    }
  }

  lemma MulAtLeast(a: int, m: int)
    requires 1 <= a && 0 < m
    ensures a * m >= m
  {
  }

  /** `to_ip`'s octet arithmetic undoes the big-endian reading of four bytes. */
  lemma OctetsOfBE32(b0: byte, b1: byte, b2: byte, b3: byte)
    ensures var n := BE32(b0, b1, b2, b3);
            n / 0x100_0000 == b0 && n / 0x1_0000 % 0x100 == b1 && n / 0x100 % 0x100 == b2 && n % 0x100 == b3
  {
    var n := BE32(b0, b1, b2, b3);
    DivMod(n, 0x100_0000, b0, b1 * 0x1_0000 + b2 * 0x100 + b3);
    DivMod(n, 0x1_0000, b0 * 0x100 + b1, b2 * 0x100 + b3);
    DivMod(b0 * 0x100 + b1, 0x100, b0, b1);
    DivMod(n, 0x100, b0 * 0x1_0000 + b1 * 0x100 + b2, b3);
    DivMod(b0 * 0x1_0000 + b1 * 0x100 + b2, 0x100, b0 * 0x100 + b1, b2);
  }

  /** The wire octets of a record print in order as the dotted quad. */
  lemma ToIpOfOctets(b0: byte, b1: byte, b2: byte, b3: byte)
    ensures ToIp(BE32(b0, b1, b2, b3)) == Join([Show(b0), Show(b1), Show(b2), Show(b3)], '.')
  {
    var m1 := b0 * 0x100 + b1;
    var m2 := m1 * 0x100 + b2;
    assert BE32(b0, b1, b2, b3) == m2 * 0x100 + b3;
    DottedStep(BE32(b0, b1, b2, b3), 4, m2, b3);
    DottedStep(m2, 3, m1, b2);
    DottedStep(m1, 2, b0, b1);
    DivMod(b0, 0x100, 0, b0);
    JoinFour(Show(b0), Show(b1), Show(b2), Show(b3));
  }

  /** One octet peeled off the low end of the dotted form. */
  lemma DottedStep(n: nat, k: nat, high: nat, low: byte)
    requires k >= 2 && n == high * 0x100 + low
    ensures DottedOctets(n, k) == DottedOctets(high, k - 1) + "." + Show(low)
  {
    DivMod(n, 0x100, high, low);
  }

  /** Four octets printed and joined with dots read back as their number. */
  lemma {:induction false} ParseDottedQuad(b0: byte, b1: byte, b2: byte, b3: byte)
    ensures ParseIp(Join([Show(b0), Show(b1), Show(b2), Show(b3)], '.')) == Some(BE32(b0, b1, b2, b3))
  {
    var fs := [Show(b0), Show(b1), Show(b2), Show(b3)];
    SplitDottedQuad(fs);
    assert ParseNat(fs[0]) == b0 && ParseNat(fs[1]) == b1 && ParseNat(fs[2]) == b2 && ParseNat(fs[3]) == b3 by {
      ParseShow(b0);
      ParseShow(b1);
      ParseShow(b2);
      ParseShow(b3);
    }
    assert forall i :: 0 <= i < 4 ==> fs[i] != "" && AllDigits(fs[i]) && ParseNat(fs[i]) < 0x100;
  }

  /** Four decimal numerals joined with dots split back into the same four. */
  lemma {:induction false} SplitDottedQuad(fs: seq<string>)
    requires |fs| == 4 && forall i :: 0 <= i < 4 ==> fs[i] != "" && AllDigits(fs[i])
    ensures RubySplit(Join(fs, '.'), '.') == fs
  {
    forall i | 0 <= i < 4
      ensures Free(fs[i], {'.'})
    {
      assert forall k :: 0 <= k < |fs[i]| ==> IsDigit(fs[i][k]);
    }
    RubySplitJoin(fs, '.');
  }

  lemma IpRoundTrip(n: nat)
    requires n < 0x1_0000_0000
    ensures ParseIp(ToIp(n)) == Some(n)
  {
    Octets(n);
    var o0: byte, o1: byte, o2: byte, o3: byte := n / 0x100_0000, n / 0x1_0000 % 0x100, n / 0x100 % 0x100, n % 0x100;
    assert BE32(o0, o1, o2, o3) == n;
    ToIpOfOctets(o0, o1, o2, o3);
    ParseDottedQuad(o0, o1, o2, o3);
  }

  lemma ToIpInjective(m: nat, n: nat)
    requires m < 0x1_0000_0000 && n < 0x1_0000_0000 && ToIp(m) == ToIp(n)
    ensures m == n
  {
    IpRoundTrip(m);
    IpRoundTrip(n);
  }

  lemma ToIpExample()
    ensures ToIp(0x0A00_0001) == "10.0.0.1"
  {
    assert BE32(10, 0, 0, 1) == 0x0A00_0001;
    ToIpOfOctets(10, 0, 0, 1);
    JoinFour(Show(10), Show(0), Show(0), Show(1));
    assert Show(10) == "10" by {
      assert Show(10) == Show(1) + [DigitChar(0)];
    }
  }

  // ---------------------------------------------------------------------------
  // Fragments

  /** An address as the master lists it: a 32-bit IPv4 number and a 16-bit port. */
  datatype Entry = Entry(ip: nat, port: nat)

  predicate ValidEntry(e: Entry) {
    e.ip < 0x1_0000_0000 && e.port < 0x1_0000
  }

  /** `unpack('NnC')` on the record at the head of `r` (the separator is not kept). */
  function RecordEntry(r: seq<byte>): (e: Entry)
    requires |r| >= 6
    ensures ValidEntry(e)
  {
    Entry(BE32(r[0], r[1], r[2], r[3]), BE16(r[4], r[5]))
  }

  /** `Server.new(to_ip(ip), port, {})`'s address for an entry. */
  function EntryAddress(e: Entry): Address
    requires ValidEntry(e)
  {
    Address(ToIp(e.ip), e.port)
  }

  /** `to_ip` applied to each entry, as `fill_list_master` creates its servers. */
  function Addresses(es: seq<Entry>): (addrs: seq<Address>)
    requires forall i :: 0 <= i < |es| ==> ValidEntry(es[i])
    ensures |addrs| == |es|
  {
    if |es| == 0 then [] else [EntryAddress(es[0])] + Addresses(es[1..])
  }

  lemma {:induction false} AddressesAt(es: seq<Entry>, i: nat)
    requires forall i :: 0 <= i < |es| ==> ValidEntry(es[i])
    requires i < |es|
    ensures Addresses(es)[i] == EntryAddress(es[i])
  {
    if i > 0 {
      AddressesAt(es[1..], i - 1);
    }
  }

  lemma {:induction false} AddressesAppend(a: seq<Entry>, b: seq<Entry>)
    requires forall i :: 0 <= i < |a| ==> ValidEntry(a[i])
    requires forall i :: 0 <= i < |b| ==> ValidEntry(b[i])
    ensures Addresses(a + b) == Addresses(a) + Addresses(b)
  {
    if |a| == 0 {
      assert a + b == b;
    } else {
      assert (a + b)[1..] == a[1..] + b;
      AddressesAppend(a[1..], b);
    }
  }

  /** The records after the header, peeled seven bytes at a time. */
  function DecodeRecords(p: seq<byte>): (es: seq<Entry>)
    requires |p| % RecordLength == 0
    ensures |es| == |p| / RecordLength
    ensures forall i :: 0 <= i < |es| ==> ValidEntry(es[i])
    decreases |p|
  {
    if |p| == 0 then []
    else
      RecordCount(|p|, 0);
      [RecordEntry(p)] + DecodeRecords(p[RecordLength..])
  }

  /** Whole records: one more after the first, and two runs together. */
  lemma RecordCount(m: nat, n: nat)
    requires m % RecordLength == 0 && n % RecordLength == 0
    ensures m > 0 ==> m >= RecordLength && (m - RecordLength) % RecordLength == 0
    ensures m > 0 ==> (m - RecordLength) / RecordLength == m / RecordLength - 1
    ensures (m + n) % RecordLength == 0
  {
    DivMod(m, RecordLength, m / RecordLength, 0);
    DivMod(n, RecordLength, n / RecordLength, 0);
    DivMod(m + n, RecordLength, m / RecordLength + n / RecordLength, 0);
    if m > 0 {
      DivMod(m - RecordLength, RecordLength, m / RecordLength - 1, 0);
    }
  }

  /** Record i comes from bytes 7i .. 7i+5. */
  lemma {:induction false} DecodeRecordsAt(p: seq<byte>, i: nat)
    requires |p| % RecordLength == 0 && i < |p| / RecordLength
    ensures DecodeRecords(p)[i] == RecordEntry(p[RecordLength * i..])
  {
    if i > 0 {
      RecordCount(|p|, 0);
      DecodeRecordsAt(p[RecordLength..], i - 1);
      assert p[RecordLength..][RecordLength * (i - 1)..] == p[RecordLength * i..];
    }
  }

  /** Decoding is the same whatever records precede a record in the fragment. */
  lemma {:induction false} DecodeRecordsAppend(a: seq<byte>, b: seq<byte>)
    requires |a| % RecordLength == 0 && |b| % RecordLength == 0
    ensures DecodeRecords(a + b) == DecodeRecords(a) + DecodeRecords(b)
  {
    if |a| == 0 {
      assert a + b == b;
    } else {
      var x := a + b;
      RecordCount(|a|, |b|);
      RecordCount(|x|, 0);
      assert x[RecordLength..] == a[RecordLength..] + b;
      assert RecordEntry(x) == RecordEntry(a);
      DecodeRecordsAppend(a[RecordLength..], b);
      calc {
        DecodeRecords(x);
        [RecordEntry(x)] + DecodeRecords(x[RecordLength..]);
        [RecordEntry(a)] + (DecodeRecords(a[RecordLength..]) + DecodeRecords(b));
        ([RecordEntry(a)] + DecodeRecords(a[RecordLength..])) + DecodeRecords(b);
        DecodeRecords(a) + DecodeRecords(b);
      }
    }
  }

  /** A fragment `fill_list_master` decodes without running off the end:
      nothing after the header, or whole records. */
  predicate WellFormedFragment(f: seq<byte>) {
    |f| <= MasterHeaderLength || (|f| - MasterHeaderLength) % RecordLength == 0
  }

  function DecodeFragment(f: seq<byte>): (es: seq<Entry>)
    requires WellFormedFragment(f)
    ensures |f| > MasterHeaderLength ==> |es| == (|f| - MasterHeaderLength) / RecordLength
    ensures forall i :: 0 <= i < |es| ==> ValidEntry(es[i])
  {
    if |f| <= MasterHeaderLength then [] else DecodeRecords(f[MasterHeaderLength..])
  }

  function EncodeRecord(e: Entry): (r: seq<byte>)
    requires ValidEntry(e)
    ensures |r| == RecordLength
  {
    [e.ip / 0x100_0000, e.ip / 0x1_0000 % 0x100, e.ip / 0x100 % 0x100, e.ip % 0x100,
     e.port / 0x100, e.port % 0x100, Separator]
  }

  function EncodeRecords(es: seq<Entry>): (p: seq<byte>)
    requires forall i :: 0 <= i < |es| ==> ValidEntry(es[i])
    ensures |p| == RecordLength * |es|
  {
    if |es| == 0 then [] else EncodeRecord(es[0]) + EncodeRecords(es[1..])
  }

  lemma {:induction false} RecordRoundTrip(e: Entry, rest: seq<byte>)
    requires ValidEntry(e)
    ensures RecordEntry(EncodeRecord(e) + rest) == e
  {
    Octets(e.ip);
  }

  /** Decoding the records of a list of entries gives the entries back, in order. */
  lemma {:induction false} RecordsRoundTrip(es: seq<Entry>)
    requires forall i :: 0 <= i < |es| ==> ValidEntry(es[i])
    ensures DecodeRecords(EncodeRecords(es)) == es
  {
    if |es| > 0 {
      var p := EncodeRecords(es);
      assert p[RecordLength..] == EncodeRecords(es[1..]);
      RecordsRoundTrip(es[1..]);
      RecordRoundTrip(es[0], EncodeRecords(es[1..]));
    }
  }

  lemma {:induction false} JoinFour(a: string, b: string, c: string, d: string)
    ensures Join([a, b, c, d], '.') == a + "." + b + "." + c + "." + d
  {
    var ts := [a, b, c, d];
    assert ts[1..] == [b, c, d] && ts[1..][1..] == [c, d] && ts[1..][1..][1..] == [d];
    assert Join([c, d], '.') == c + "." + d;
    assert Join([b, c, d], '.') == b + "." + (c + "." + d);
    assert Join(ts, '.') == a + "." + (b + "." + (c + "." + d));
  }

  lemma DottedQuadExample(b0: byte, b1: byte, b2: byte, b3: byte)
    requires b0 < 10 && b1 < 10 && b2 < 10 && b3 < 10
    ensures ToIp(BE32(b0, b1, b2, b3)) == [DigitChar(b0), '.', DigitChar(b1), '.', DigitChar(b2), '.', DigitChar(b3)]
  {
    ToIpOfOctets(b0, b1, b2, b3);
    JoinFour(Show(b0), Show(b1), Show(b2), Show(b3));
  }

  /** Two records (1.2.3.4, 27960) and (5.6.7.8, 27961) after any header
      become those two addresses, in order. */
  lemma {:induction false} TwoRecordsExample(header: seq<byte>)
    requires |header| == MasterHeaderLength
    ensures var es := [Entry(0x0102_0304, 27960), Entry(0x0506_0708, 27961)];
            var f := header + EncodeRecords(es);
            WellFormedFragment(f) && DecodeFragment(f) == es &&
            EntryAddress(es[0]) == Address("1.2.3.4", 27960) && EntryAddress(es[1]) == Address("5.6.7.8", 27961)
  {
    var es := [Entry(0x0102_0304, 27960), Entry(0x0506_0708, 27961)];
    var f := header + EncodeRecords(es);
    assert f[MasterHeaderLength..] == EncodeRecords(es);
    RecordsRoundTrip(es);
    assert ToIp(0x0102_0304) == "1.2.3.4" by {
      DottedQuadExample(1, 2, 3, 4);
    }
    assert ToIp(0x0506_0708) == "5.6.7.8" by {
      DottedQuadExample(5, 6, 7, 8);
    }
  }

  /** The master's reply is complete once a short fragment has arrived. */
  predicate MasterReplyEnds(fs: seq<seq<byte>>) {
    exists i :: 0 <= i < |fs| && |fs[i]| < ShortFragment
  }

  function FirstShort(fs: seq<seq<byte>>): (k: nat)
    requires MasterReplyEnds(fs)
    ensures k < |fs| && |fs[k]| < ShortFragment
    ensures forall i :: 0 <= i < k ==> |fs[i]| >= ShortFragment
  {
    if |fs[0]| < ShortFragment then 0
    else
      assert MasterReplyEnds(fs[1..]) by {
        var i :| 0 <= i < |fs| && |fs[i]| < ShortFragment;
        assert fs[1..][i - 1] == fs[i];
      }
      FirstShort(fs[1..]) + 1
  }

  /** Every datagram up to and including the first short one. */
  function Collected(fs: seq<seq<byte>>): seq<seq<byte>>
    requires MasterReplyEnds(fs)
  {
    fs[..FirstShort(fs) + 1]
  }

  /** The collected fragments are a prefix of the arrivals whose last fragment,
      and only that one, is short. */
  lemma CollectedStopsAtShort(fs: seq<seq<byte>>)
    requires MasterReplyEnds(fs)
    ensures var c := Collected(fs);
            1 <= |c| <= |fs| && c == fs[..|c|] && |c[|c| - 1]| < ShortFragment &&
            forall i :: 0 <= i < |c| - 1 ==> |c[i]| >= ShortFragment
  {
  }

  predicate CollectedWellFormed(fs: seq<seq<byte>>)
    requires MasterReplyEnds(fs)
  {
    forall i :: 0 <= i < |Collected(fs)| ==> WellFormedFragment(Collected(fs)[i])
  }

  /** The entries of several fragments, in arrival order. */
  function MasterEntries(fs: seq<seq<byte>>): (es: seq<Entry>)
    requires forall i :: 0 <= i < |fs| ==> WellFormedFragment(fs[i])
    ensures forall i :: 0 <= i < |es| ==> ValidEntry(es[i])
  {
    if |fs| == 0 then []
    else MasterEntries(fs[..|fs| - 1]) + DecodeFragment(fs[|fs| - 1])
  }

  /** The addresses of the first `n` fragments, as `fill_list_master` adds them
      one fragment after the other. */
  function FilledAddresses(fs: seq<seq<byte>>, n: nat): (addrs: seq<Address>)
    requires n <= |fs| && forall i :: 0 <= i < |fs| ==> WellFormedFragment(fs[i])
  {
    if n == 0 then [] else FilledAddresses(fs, n - 1) + Addresses(DecodeFragment(fs[n - 1]))
  }

  lemma FilledAllFragments(fs: seq<seq<byte>>)
    requires forall i :: 0 <= i < |fs| ==> WellFormedFragment(fs[i])
    ensures FilledAddresses(fs, |fs|) == Addresses(MasterEntries(fs))
  {
    FilledAddressesAll(fs, |fs|);
    assert fs[..|fs|] == fs;
  }

  /** Filling fragment by fragment gives `to_ip` of all the master's entries. */
  lemma {:induction false} FilledAddressesAll(fs: seq<seq<byte>>, n: nat)
    requires n <= |fs| && forall i :: 0 <= i < |fs| ==> WellFormedFragment(fs[i])
    ensures FilledAddresses(fs, n) == Addresses(MasterEntries(fs[..n]))
  {
    if n > 0 {
      FilledAddressesAll(fs, n - 1);
      assert fs[..n][..n - 1] == fs[..n - 1];
      AddressesAppend(MasterEntries(fs[..n - 1]), DecodeFragment(fs[n - 1]));
    }
  }

  // ---------------------------------------------------------------------------
  // Freshness

  /** `master_server_outdated?`: never fetched, or strictly past the TTL. */
  predicate MasterOutdated(fetchedAt: Option<int>, now: int, ttl: nat) {
    fetchedAt.None? || now > fetchedAt.value + ttl
  }

  lemma MasterOutdatedBoundary(t: int, ttl: nat, now: int)
    ensures MasterOutdated(None, now, ttl)
    ensures !MasterOutdated(Some(t), t + ttl, ttl)
    ensures MasterOutdated(Some(t), t + ttl + 1, ttl)
  {
  }

  /** `server_info_outdated?`; the stamp is read only when the info is not empty. */
  predicate InfoOutdated(info: map<string, Value>, now: int, ttl: nat)
    requires HasInfo(info) ==> UpdatedAt(info).Some?
  {
    !HasInfo(info) || now > UpdatedAt(info).value + ttl
  }

  /** `server_status_outdated?`; the stamp is read only when a status is
      present, and reading it raises when `sv_status` is not a hash. */
  function StatusOutdated(info: map<string, Value>, now: int, ttl: nat): Result<bool>
    requires HasInfoStatus(info) && StatusUpdatedAt(info).Ok? ==> StatusUpdatedAt(info).value.Some?
  {
    if !HasInfoStatus(info) then Ok(true)
    else match StatusUpdatedAt(info)
      case Err(e) => Err(e)
      case Ok(stamp) => Ok(now > stamp.value + ttl)
  }

  /** `cached_info?`. */
  predicate InfoCached(info: map<string, Value>, cache: bool, now: int, ttl: nat)
    requires cache && HasInfo(info) ==> UpdatedAt(info).Some?
  {
    cache && HasInfo(info) && !InfoOutdated(info, now, ttl)
  }

  /** `cached_status?`: `&&` stops at the first false operand, so the stamp
      is read only with caching on and a status present. */
  function StatusCached(info: map<string, Value>, cache: bool, now: int, ttl: nat): Result<bool>
    requires cache && HasInfoStatus(info) && StatusUpdatedAt(info).Ok? ==> StatusUpdatedAt(info).value.Some?
  {
    if !cache || !HasInfoStatus(info) then Ok(false)
    else match StatusOutdated(info, now, ttl)
      case Err(e) => Err(e)
      case Ok(outdated) => Ok(!outdated)
  }

  /** `cached_info?` on any info hash: caching on, info present, and at most
      `ttl` seconds past its stamp (the strict `>` of `server_info_outdated?`). */
  lemma InfoCachedWithin(info: map<string, Value>, cache: bool, now: int, ttl: nat)
    requires cache && HasInfo(info) ==> UpdatedAt(info).Some?
    ensures InfoCached(info, cache, now, ttl) <==>
              cache && HasInfo(info) && now <= UpdatedAt(info).value + ttl
  {
  }

  /** `cached_status?` on any info hash: caching on, a status present, and at
      most `ttl` seconds past the status stamp. */
  lemma StatusCachedWithin(info: map<string, Value>, cache: bool, now: int, ttl: nat)
    requires cache && HasInfoStatus(info) && StatusUpdatedAt(info).Ok? ==> StatusUpdatedAt(info).value.Some?
    ensures StatusCached(info, cache, now, ttl).Err? <==>
              cache && HasInfoStatus(info) && !InfoStatus(info).Table?
    ensures StatusCached(info, cache, now, ttl).Err? ==> StatusCached(info, cache, now, ttl).error == NotAHash
    ensures StatusCached(info, cache, now, ttl).Ok? ==>
              (StatusCached(info, cache, now, ttl).value <==>
               cache && HasInfoStatus(info) && now <= StatusUpdatedAt(info).value.value + ttl)
  {
  }

  /** Info read at time t is served from the cache exactly while caching is on
      and at most `ttl` seconds have passed. */
  lemma InfoCachedAfterRead(read: map<string, string>, t: int, cache: bool, now: int, ttl: nat)
    ensures var info := AfterReadInfo(read, t);
            InfoCached(info, cache, now, ttl) <==> cache && now <= t + ttl
  {
  }

  /** The same for status, against the stamp inside the status hash. */
  lemma StatusCachedAfterRead(info: map<string, Value>, read: map<string, Value>, t: int,
                              cache: bool, now: int, ttl: nat)
    ensures var after := AfterReadStatus(info, read, t);
            StatusCached(after, cache, now, ttl) == Ok(cache && now <= t + ttl)
  {
  }

  /** An info reply that carries a non-empty `sv_status` key of its own leaves
      a string there: `info_status?` holds, so with caching on
      `cached_status?` reaches `dig` and raises; with caching off it is false. */
  lemma InfoReplyWithStatusKey(read: map<string, string>, t: int, now: int, ttl: nat)
    requires "sv_status" in read && read["sv_status"] != ""
    ensures var info := AfterReadInfo(read, t);
            HasInfoStatus(info) &&
            StatusCached(info, true, now, ttl) == Err(NotAHash) &&
            StatusCached(info, false, now, ttl) == Ok(false)
  {
  }

  /** Fetched at T with a 60-second TTL: fresh at T+30, stale at T+90. */
  lemma FreshnessExample(read: map<string, string>, t: int)
    ensures InfoCached(AfterReadInfo(read, t), true, t + 30, 60)
    ensures !InfoCached(AfterReadInfo(read, t), true, t + 90, 60)
  {
    InfoCachedAfterRead(read, t, true, t + 30, 60);
    InfoCachedAfterRead(read, t, true, t + 90, 60);
  }

  /** Some server of `favs` has the identity of `s`. */
  predicate SameIdentityIn(favs: seq<Server>, s: Server)
  {
    exists i :: 0 <= i < |favs| && favs[i].UniqueIndex() == s.UniqueIndex()
  }

  /** `favorites.any? { |fav| server.unique_index == fav.unique_index }`. */
  function AnyFavorite(favs: seq<Server>, s: Server): (r: bool)
    ensures r <==> SameIdentityIn(favs, s)
  {
    if |favs| == 0 then false
    else if favs[0].UniqueIndex() == s.UniqueIndex() then true
    else
      var r := AnyFavorite(favs[1..], s);
      assert SameIdentityIn(favs, s) ==> SameIdentityIn(favs[1..], s) by {
        if SameIdentityIn(favs, s) {
          var i :| 0 <= i < |favs| && favs[i].UniqueIndex() == s.UniqueIndex();
          assert favs[1..][i - 1] == favs[i];
        }
      }
      assert SameIdentityIn(favs[1..], s) ==> SameIdentityIn(favs, s) by {
        if SameIdentityIn(favs[1..], s) {
          var i :| 0 <= i < |favs[1..]| && favs[1..][i].UniqueIndex() == s.UniqueIndex();
          assert favs[i + 1] == favs[1..][i];
        }
      }
      r
  }

  /** A new server for `a`, as `Server.new(ip, port, {})` leaves it. */
  predicate NewServerFor(s: Server, a: Address)
    reads s
  {
    s.conn == NewConnection(a.ip, a.port) && s.info == map[] && s.status == Unset
  }


  /** The decoding half of `fill_list_master`: skip the header, then let
      `unpack('NnCa*')` take one record off the front until nothing is left. */
  method UnpackFragment(response: seq<byte>) returns (entries: seq<Entry>)
    requires WellFormedFragment(response)
    ensures entries == DecodeFragment(response)
  {
    entries := [];
    if |response| <= MasterHeaderLength {
      return;
    }
    var rest := response[MasterHeaderLength..];
    while |rest| > 0
      invariant |rest| % RecordLength == 0
      invariant DecodeFragment(response) == entries + DecodeRecords(rest)
      decreases |rest|
    {
      var e := RecordEntry(rest);
      RecordCount(|rest|, 0);
      assert DecodeRecords(rest) == [e] + DecodeRecords(rest[RecordLength..]);
      entries := entries + [e];
      rest := rest[RecordLength..];
    }
  }

  class List {
    var servers: seq<Server>
    var favorites: seq<Server>
    var cache: bool
    var timeout: nat
    var masterUpdatedAt: Option<int>
    var masterCacheSecs: nat
    var infoCacheSecs: nat
    var onlyFavorites: bool
    var masterAddress: string
    var masterPort: nat

    constructor ()
      ensures servers == [] && favorites == [] && cache && timeout == 1
      ensures masterUpdatedAt == None && masterCacheSecs == 600 && infoCacheSecs == 60
      ensures !onlyFavorites && masterAddress == "master.urbanterror.info" && masterPort == 27900
    {
      servers := [];
      favorites := [];
      cache := true;
      timeout := 1;
      masterUpdatedAt := None;
      masterCacheSecs := 600;
      infoCacheSecs := 60;
      onlyFavorites := false;
      masterAddress := "master.urbanterror.info";
      masterPort := 27900;
    }

    /** The servers from index `start` on are new servers for `addrs`, in order. */
    ghost predicate ServersFor(start: nat, addrs: seq<Address>)
      reads this, servers
    {
      && |servers| == start + |addrs|
      && forall i :: start <= i < |servers| ==> NewServerFor(servers[i], addrs[i - start])
    }

    method AddServer(s: Server)
      modifies this`servers
      ensures servers == old(servers) + [s]
    {
      servers := servers + [s];
    }

    /** A new server with empty info, appended to both lists; like `servers <<`
        in `add_server`, it answers the server list. */
    method AddFavorite(ip: string, port: nat) returns (all: seq<Server>)
      modifies this`servers, this`favorites
      ensures |servers| == |old(servers)| + 1 && servers[..|old(servers)|] == old(servers)
      ensures var fav := servers[|servers| - 1];
              fresh(fav) && NewServerFor(fav, Address(ip, port)) &&
              favorites == old(favorites) + [fav] && IsFavorite(fav)
      ensures all == servers
    {
      var fav := new Server(ip, port);
      favorites := favorites + [fav];
      AddServer(fav);
      assert favorites[|favorites| - 1] == fav;
      all := servers;
    }

    /** `favorite?`: compares identities, not objects. */
    predicate IsFavorite(s: Server)
      reads this
    {
      AnyFavorite(favorites, s)
    }

    predicate MasterServerOutdated(now: int)
      reads this
    {
      MasterOutdated(masterUpdatedAt, now, masterCacheSecs)
    }

    /** `fill_list_master`: appends one new server per record of the fragment,
        in wire order; the servers already listed are untouched. When the
        fragment is number `j` of the reply `fs` and the list held the servers
        of the fragments before it, it now holds those up to and including it. */
    method FillListMaster(response: seq<byte>, ghost fs: seq<seq<byte>>, ghost j: nat)
      requires WellFormedFragment(response)
      requires j < |fs| && fs[j] == response && forall i :: 0 <= i < |fs| ==> WellFormedFragment(fs[i])
      modifies this`servers
      ensures ServersFor(|old(servers)|, Addresses(DecodeFragment(response)))
      ensures servers[..|old(servers)|] == old(servers)
      ensures forall i :: |old(servers)| <= i < |servers| ==> fresh(servers[i])
      ensures old(ServersFor(0, FilledAddresses(fs, j))) ==> ServersFor(0, FilledAddresses(fs, j + 1))
    {
      var entries := UnpackFragment(response);
      var addrs := Addresses(entries);
      AppendServers(addrs, FilledAddresses(fs, j));
    }

    /** The loop of `fill_list_master`: `add_server(Server.new(ip, port, {}))`
        for each address in turn. */
    method AppendServers(addrs: seq<Address>, ghost known: seq<Address>)
      modifies this`servers
      ensures ServersFor(|old(servers)|, addrs)
      ensures servers[..|old(servers)|] == old(servers)
      ensures forall i :: |old(servers)| <= i < |servers| ==> fresh(servers[i])
      ensures old(ServersFor(0, known)) ==> ServersFor(0, known + addrs)
    {
      ghost var start := |servers|;
      var k := 0;
      while k < |addrs|
        invariant k <= |addrs|
        invariant |servers| == start + k
        invariant servers[..start] == old(servers)
        invariant forall i :: start <= i < |servers| ==> NewServerFor(servers[i], addrs[i - start])
        invariant forall i :: start <= i < |servers| ==> fresh(servers[i])
      {
        var newServer := new Server(addrs[k].ip, addrs[k].port);
        AddServer(newServer);
        k := k + 1;
      }
      if old(ServersFor(0, known)) {
        assert forall i :: 0 <= i < start ==> servers[i] == old(servers[i]);
        assert forall i :: 0 <= i < |servers| ==> NewServerFor(servers[i], (known + addrs)[i]);
      }
    }

    /** `servers_list_from_master`: empties the list, collects fragments up to
        and including the first short one, decodes them in arrival order unless
        only favourites are wanted, and stamps the refresh. Favourites are not
        added back. Returns the query sent to the master. */
    method ServersListFromMaster(incoming: seq<seq<byte>>, now: int) returns (query: string)
      requires MasterReplyEnds(incoming) && CollectedWellFormed(incoming)
      modifies this`servers, this`masterUpdatedAt
      ensures query == MasterQuery && masterUpdatedAt == Some(now)
      ensures onlyFavorites ==> servers == []
      ensures !onlyFavorites ==> ServersFor(0, Addresses(MasterEntries(Collected(incoming))))
    {
      servers := [];
      query := MasterQuery;
      var responses := ReceiveFragments(incoming);
      if !onlyFavorites {
        FillAll(responses);
        FilledAllFragments(responses);
      }
      masterUpdatedAt := Some(now);
    }

    /** The receive loop of `servers_list_from_master`: appends datagrams
        until one is shorter than a full fragment. */
    static method ReceiveFragments(incoming: seq<seq<byte>>) returns (responses: seq<seq<byte>>)
      requires MasterReplyEnds(incoming)
      ensures responses == Collected(incoming)
      ensures 1 <= |responses| && |responses[|responses| - 1]| < ShortFragment
      ensures forall i :: 0 <= i < |responses| - 1 ==> |responses[i]| >= ShortFragment
    {
      responses := [];
      var i := 0;
      while true
        invariant i <= FirstShort(incoming) && responses == incoming[..i]
        decreases FirstShort(incoming) - i
      {
        responses := responses + [incoming[i]];
        if |incoming[i]| < ShortFragment {
          break;
        }
        i := i + 1;
      }
    }

    /** `response_all_servers.each { |r_server| fill_list_master(r_server) }`
        on an empty list. */
    method FillAll(responses: seq<seq<byte>>)
      requires servers == []
      requires forall i :: 0 <= i < |responses| ==> WellFormedFragment(responses[i])
      modifies this`servers
      ensures ServersFor(0, FilledAddresses(responses, |responses|))
    {
      var j := 0;
      while j < |responses|
        invariant j <= |responses|
        invariant ServersFor(0, FilledAddresses(responses, j))
      {
        FillListMaster(responses[j], responses, j);
        j := j + 1;
      }
    }

    /** The first step of `fetch_servers`: refresh from the master exactly when
        the list is outdated and favourites-only mode is off. */
    method RefreshIfDue(incoming: seq<seq<byte>>, now: int) returns (refreshed: bool)
      requires MasterOutdated(masterUpdatedAt, now, masterCacheSecs) && !onlyFavorites ==>
                 MasterReplyEnds(incoming) && CollectedWellFormed(incoming)
      modifies this`servers, this`masterUpdatedAt
      ensures refreshed <==> old(MasterOutdated(masterUpdatedAt, now, masterCacheSecs)) && !onlyFavorites
      ensures !refreshed ==> servers == old(servers) && masterUpdatedAt == old(masterUpdatedAt)
      ensures refreshed ==> masterUpdatedAt == Some(now) && ServersFor(0, Addresses(MasterEntries(Collected(incoming))))
      ensures refreshed ==> !MasterServerOutdated(now)
    {
      refreshed := MasterServerOutdated(now) && !onlyFavorites;
      if refreshed {
        var _ := ServersListFromMaster(incoming, now);
      }
    }
  }
}

/** The net helper's policies: what a decoded request may contain, and the names its
    kernel objects get (agent/nethelper/types.go). */
module PolicyModel {
  import opened Base

  const MAX_POLICIES := 64
  const MAX_QUOTA := 0x4000_0000_0000_0000

  datatype Protocol = Tcp | Udp | TcpAndUdp
  datatype Direction = RxOnly | TxOnly | BothWays
  datatype Mode = MonitorOnly | Enforcing
  /** One of the two byte counters a policy may own. */
  datatype Way = Rx | Tx

  datatype Policy = Policy(
    id: string,
    protocol: Protocol,
    direction: Direction,
    portStart: int,
    portEnd: int,
    interfaceName: string,
    mode: Mode,
    quotaBytes: int,
    egressRate: int,
    generation: int,
    lifetimeRx: int,
    lifetimeTx: int,
    lastKernelRx: int,
    lastKernelTx: int,
    periodStartRx: int,
    periodStartTx: int,
    periodStarted: int,
    lastResetAt: int,
    nextResetAt: string,
    resetPolicy: string)
  {
    function Lifetime(way: Way): int {
      if way.Rx? then lifetimeRx else lifetimeTx
    }

    function LastKernel(way: Way): int {
      if way.Rx? then lastKernelRx else lastKernelTx
    }

    function PeriodStart(way: Way): int {
      if way.Rx? then periodStartRx else periodStartTx
    }

    predicate Counts(way: Way) {
      direction.BothWays? || (direction.RxOnly? <==> way.Rx?)
    }

    /** Bytes of the running period, both ways together. */
    function Used(): int {
      (lifetimeRx - periodStartRx) + (lifetimeTx - periodStartTx)
    }
  }

  // ---------------------------------------------------------------- parsing

  /** A request's policy fields. A number is None when the text is not a decimal
      64-bit integer; the three flags are the answers of the interface table, of the
      JSON decoder and of the RFC 3339 parser. */
  datatype RawPolicy = RawPolicy(
    fieldCount: nat,
    id: string,
    protocol: string,
    direction: string,
    mode: string,
    portStart: Option<int>,
    portEnd: Option<int>,
    quotaBytes: Option<int>,
    egressRate: Option<int>,
    generation: Option<int>,
    interfaceName: string,
    interfaceNameAllowed: bool,
    interfaceExists: bool,
    resetPolicy: string,
    resetIsObject: bool,
    nextResetAt: string,
    nextResetParses: bool)

  predicate IsHex(c: char) {
    '0' <= c <= '9' || 'a' <= c <= 'f'
  }

  predicate DashPosition(i: int) {
    i == 8 || i == 13 || i == 18 || i == 23
  }

  /** The accepted identifiers: lower-case UUIDs of versions 1 to 5. */
  predicate ValidId(id: string) {
    && |id| == 36
    && (forall i | 0 <= i < 36 :: if DashPosition(i) then id[i] == '-' else IsHex(id[i]))
    && '1' <= id[14] <= '5'
    && id[19] in {'8', '9', 'a', 'b'}
  }

  predicate InRange(n: Option<int>, low: int, high: int) {
    n.Some? && low <= n.value <= high
  }

  /** Every bound a stored policy obeys. */
  predicate Bounded(p: Policy) {
    && ValidId(p.id)
    && 1 <= p.portStart <= p.portEnd <= 65535
    && p.portEnd - p.portStart < 4096
    && 0 <= p.quotaBytes <= MAX_QUOTA
    && (p.mode.Enforcing? ==> 1 <= p.quotaBytes)
    && (p.egressRate == 0 || 8000 <= p.egressRate <= 100_000_000_000)
    && (p.direction.RxOnly? ==> p.egressRate == 0)
    && 1 <= p.generation
  }

  function ParseProtocol(s: string): Option<Protocol> {
    if s == "tcp" then Some(Tcp) else if s == "udp" then Some(Udp) else if s == "both" then Some(TcpAndUdp) else None
  }

  function ParseDirection(s: string): Option<Direction> {
    if s == "rx" then Some(RxOnly) else if s == "tx" then Some(TxOnly) else if s == "both" then Some(BothWays) else None
  }

  function ParseMode(s: string): Option<Mode> {
    if s == "monitor_only" then Some(MonitorOnly) else if s == "enforcing" then Some(Enforcing) else None
  }

  /** Decode a request's policy in the source's order of checks. A new policy starts with
      empty accounts, whatever the request says. */
  function ParsePolicy(raw: RawPolicy, checkInterface: bool): (r: Result<Policy, string>)
    ensures r.Ok? ==> Bounded(r.value) && 1 <= r.value.generation <= 0x7fff_ffff
    ensures r.Ok? ==> forall way :: r.value.Lifetime(way) == r.value.LastKernel(way) == r.value.PeriodStart(way) == 0
    ensures r.Ok? && checkInterface ==> raw.interfaceName == "" || raw.interfaceExists
  {
    var protocol := ParseProtocol(raw.protocol);
    var direction := ParseDirection(raw.direction);
    var mode := ParseMode(raw.mode);
    if raw.fieldCount == 0 || raw.fieldCount > 12 then Err("policy is missing or exceeds field limits")
    else if !ValidId(raw.id) then Err("policy id is invalid")
    else if protocol.None? then Err("protocol is invalid")
    else if direction.None? then Err("direction is invalid")
    else if mode.None? then Err("mode is invalid")
    else if !InRange(raw.portStart, 1, 65535) then Err("port_start is outside the permitted range")
    else if !InRange(raw.portEnd, raw.portStart.value, 65535)
      || raw.portEnd.value - raw.portStart.value + 1 > 4096 then Err("port range is invalid")
    else if !InRange(raw.quotaBytes, 0, MAX_QUOTA) then Err("quota_bytes is outside the permitted range")
    else if !InRange(raw.egressRate, 0, 100_000_000_000)
      || (raw.egressRate.value > 0 && raw.egressRate.value < 8000) then Err("egress rate is invalid")
    else if !InRange(raw.generation, 1, 0x7fff_ffff) then Err("counter_generation is outside the permitted range")
    else if mode.value.Enforcing? && raw.quotaBytes.value == 0 then Err("enforcing mode requires a quota")
    else if raw.egressRate.value > 0 && direction.value.RxOnly? then
      Err("first-version shaping supports egress only")
    else if raw.interfaceName != "" && !raw.interfaceNameAllowed then Err("interface name is invalid")
    else if raw.interfaceName != "" && checkInterface && !raw.interfaceExists then Err("interface does not exist")
    else if |raw.resetPolicy| > 1024 || !raw.resetIsObject then Err("reset policy is invalid")
    else if raw.nextResetAt != "" && (|raw.nextResetAt| > 40 || !raw.nextResetParses) then
      Err("next reset timestamp is invalid")
    else
      Ok(Policy(raw.id, protocol.value, direction.value, raw.portStart.value, raw.portEnd.value,
                raw.interfaceName, mode.value, raw.quotaBytes.value, raw.egressRate.value,
                raw.generation.value, 0, 0, 0, 0, 0, 0, 0, 0, raw.nextResetAt, raw.resetPolicy))
  }

  /** The characters at positions `low` up to `high` are lower-case hexadecimal digits. */
  predicate HexGroup(id: string, low: nat, high: nat)
    requires high <= |id|
  {
    forall i | low <= i < high ::
      id[i] in {'0', '1', '2', '3', '4', '5', '6', '7', '8', '9', 'a', 'b', 'c', 'd', 'e', 'f'}
  }

  /** Five groups of digits between four dashes, with a version and a variant. */
  predicate IsUuid(id: string) {
    && |id| == 36
    && HexGroup(id, 0, 8) && id[8] == '-'
    && HexGroup(id, 9, 13) && id[13] == '-'
    && id[14] in {'1', '2', '3', '4', '5'} && HexGroup(id, 15, 18) && id[18] == '-'
    && id[19] in {'8', '9', 'a', 'b'} && HexGroup(id, 20, 23) && id[23] == '-'
    && HexGroup(id, 24, 36)
  }

  lemma HexIff(c: char)
    ensures IsHex(c) <==> c in {'0', '1', '2', '3', '4', '5', '6', '7', '8', '9', 'a', 'b', 'c', 'd', 'e', 'f'}
  {
  }

  lemma ValidIdIff(id: string)
    ensures ValidId(id) <==> IsUuid(id)
  {
    if |id| == 36 {
      forall i | 0 <= i < 36
        ensures IsHex(id[i]) <==>
          id[i] in {'0', '1', '2', '3', '4', '5', '6', '7', '8', '9', 'a', 'b', 'c', 'd', 'e', 'f'}
      {
        HexIff(id[i]);
      }
      if IsUuid(id) {
        UuidIsValid(id);
      }
    }
  }

  lemma UuidIsValid(id: string)
    requires IsUuid(id)
    ensures ValidId(id)
  {
    forall i | 0 <= i < 36
      ensures if DashPosition(i) then id[i] == '-' else IsHex(id[i])
    {
      HexIff(id[i]);
    }
  }

  predicate Within(n: Option<int>, low: int, high: int) {
    n.Some? && low <= n.value <= high
  }

  /** Main result: exactly when a request's policy is decoded. */
  lemma ParsesIff(raw: RawPolicy, checkInterface: bool)
    ensures ParsePolicy(raw, checkInterface).Ok? <==>
      && 1 <= raw.fieldCount <= 12
      && IsUuid(raw.id)
      && raw.protocol in ["tcp", "udp", "both"]
      && raw.direction in ["rx", "tx", "both"]
      && raw.mode in ["monitor_only", "enforcing"]
      && raw.portStart.Some? && raw.portEnd.Some?
      && 1 <= raw.portStart.value <= raw.portEnd.value <= 65535
      && raw.portEnd.value - raw.portStart.value <= 4095
      && Within(raw.quotaBytes, if raw.mode == "enforcing" then 1 else 0, 0x4000_0000_0000_0000)
      && (raw.egressRate == Some(0) || (Within(raw.egressRate, 8000, 100_000_000_000) && raw.direction != "rx"))
      && Within(raw.generation, 1, 0x7fff_ffff)
      && (raw.interfaceName == "" || (raw.interfaceNameAllowed && (checkInterface ==> raw.interfaceExists)))
      && |raw.resetPolicy| <= 1024 && raw.resetIsObject
      && (raw.nextResetAt == "" || (|raw.nextResetAt| <= 40 && raw.nextResetParses))
  {
    ValidIdIff(raw.id);
  }

  /** What is decoded is what was asked for, with empty accounts. */
  lemma ParsedCarriesRequest(raw: RawPolicy, checkInterface: bool)
    requires ParsePolicy(raw, checkInterface).Ok?
    ensures var p := ParsePolicy(raw, checkInterface).value;
            && p.id == raw.id && p.interfaceName == raw.interfaceName
            && (p.protocol.Tcp? <==> raw.protocol == "tcp") && (p.protocol.Udp? <==> raw.protocol == "udp")
            && (p.direction.RxOnly? <==> raw.direction == "rx") && (p.direction.TxOnly? <==> raw.direction == "tx")
            && (p.mode.Enforcing? <==> raw.mode == "enforcing")
            && Some(p.portStart) == raw.portStart && Some(p.portEnd) == raw.portEnd
            && Some(p.quotaBytes) == raw.quotaBytes && Some(p.egressRate) == raw.egressRate
            && Some(p.generation) == raw.generation
            && p.resetPolicy == raw.resetPolicy && p.nextResetAt == raw.nextResetAt
            && p.periodStarted == p.lastResetAt == 0
  {
  }

  // ---------------------------------------------------------------- names

  /** Drop every dash. */
  function Strip(s: string): string {
    if s == "" then ""
    else if s[0] == '-' then Strip(s[1..])
    else [s[0]] + Strip(s[1..])
  }

  function PolicyKey(id: string): string {
    "vg_" + Strip(id)
  }

  function CounterName(id: string, way: Way): string {
    PolicyKey(id) + (if way.Rx? then "_rx" else "_tx")
  }

  function QuotaName(id: string): string {
    PolicyKey(id) + "_quota"
  }

  lemma StripHead(c: char, s: string)
    ensures Strip([c] + s) == (if c == '-' then "" else [c]) + Strip(s)
  {
    assert ([c] + s)[1..] == s;
    if c == '-' {
      assert "" + Strip(s) == Strip(s);
    }
  }

  lemma {:induction false} StripAppend(a: string, b: string)
    ensures Strip(a + b) == Strip(a) + Strip(b)
  {
    if a == "" {
      assert a + b == b;
    } else {
      var c, rest := a[0], a[1..];
      assert a == [c] + rest;
      assert a + b == [c] + (rest + b);
      StripAppend(rest, b);
      StripHead(c, rest);
      StripHead(c, rest + b);
    }
  }

  lemma {:induction false} StripNothing(s: string)
    requires '-' !in s
    ensures Strip(s) == s
  {
    if s != "" {
      StripNothing(s[1..]);
    }
  }

  /** A stretch of an identifier that starts after dash `i` and ends at dash `j` (or at the
      end) survives whole; the dash before it does not. */
  lemma StripGroup(id: string, i: nat, j: nat)
    requires ValidId(id) && i < j <= 36 && DashPosition(i) && (DashPosition(j) || j == 36)
    requires forall k | i < k < j :: !DashPosition(k)
    ensures Strip(id[i..]) == id[i + 1..j] + Strip(id[j..])
  {
    var group, rest := id[i + 1..j], id[j..];
    forall k | 0 <= k < |group|
      ensures group[k] != '-'
    {
      assert group[k] == id[i + 1 + k] && !DashPosition(i + 1 + k);
      assert IsHex(id[i + 1 + k]);
    }
    StripNothing(group);
    StripAppend(group, rest);
    assert id[i..][0] == '-';
    assert id[i..][1..] == id[i + 1..];
    Split(id, i + 1, j);
  }

  /** What is left of a valid identifier once its dashes are gone. */
  lemma StripValid(id: string)
    requires ValidId(id)
    ensures Strip(id) == id[..8] + (id[9..13] + (id[14..18] + (id[19..23] + id[24..])))
  {
    StripGroup(id, 23, 36);
    StripGroup(id, 18, 23);
    StripGroup(id, 13, 18);
    StripGroup(id, 8, 13);
    assert id[24..36] + Strip(id[36..]) == id[24..];
    forall k | 0 <= k < 8
      ensures id[..8][k] != '-'
    {
      assert IsHex(id[k]);
    }
    StripNothing(id[..8]);
    StripAppend(id[..8], id[8..]);
    assert id == id[..8] + id[8..];
  }

  /** The kernel names of a policy: its five groups without the dashes, between prefix and suffix. */
  lemma NamesPlainly(id: string)
    requires ValidId(id)
    ensures var groups := id[..8] + (id[9..13] + (id[14..18] + (id[19..23] + id[24..])));
            && CounterName(id, Rx) == "vg_" + groups + "_rx"
            && CounterName(id, Tx) == "vg_" + groups + "_tx"
            && QuotaName(id) == "vg_" + groups + "_quota"
  {
    StripValid(id);
  }

  lemma StripGroups(id: string)
    requires ValidId(id)
    ensures var x := Strip(id);
            |x| == 32 && x[..8] == id[..8] && x[8..12] == id[9..13] && x[12..16] == id[14..18]
            && x[16..20] == id[19..23] && x[20..] == id[24..]
  {
    StripValid(id);
  }

  lemma SameGroups(a: string, b: string)
    requires ValidId(a) && ValidId(b)
    requires a[..8] == b[..8] && a[9..13] == b[9..13]
    requires a[14..18] == b[14..18] && a[19..23] == b[19..23] && a[24..] == b[24..]
    ensures a == b
  {
    forall k | 0 <= k < 36
      ensures a[k] == b[k]
    {
      if DashPosition(k) {
      } else if k < 8 {
        assert a[..8][k] == b[..8][k];
      } else if k < 13 {
        assert a[9..13][k - 9] == b[9..13][k - 9];
      } else if k < 18 {
        assert a[14..18][k - 14] == b[14..18][k - 14];
      } else if k < 23 {
        assert a[19..23][k - 19] == b[19..23][k - 19];
      } else {
        assert a[24..][k - 24] == b[24..][k - 24];
      }
    }
  }

  /** Distinct policies never share a key. */
  lemma PolicyKeyInjective(a: string, b: string)
    requires ValidId(a) && ValidId(b)
    requires PolicyKey(a) == PolicyKey(b)
    ensures a == b
  {
    assert PolicyKey(a)[3..] == Strip(a) && PolicyKey(b)[3..] == Strip(b);
    StripGroups(a);
    StripGroups(b);
    SameGroups(a, b);
  }

  /** A counter name determines its policy and its direction. */
  lemma CounterNameInjective(a: string, way: Way, b: string, way': Way)
    requires ValidId(a) && ValidId(b)
    requires CounterName(a, way) == CounterName(b, way')
    ensures a == b && way == way'
  {
    var x, y := CounterName(a, way), CounterName(b, way');
    assert x[|x| - 2] == if way.Rx? then 'r' else 't';
    assert y[|y| - 2] == if way'.Rx? then 'r' else 't';
    assert x[..|x| - 3] == PolicyKey(a) && y[..|y| - 3] == PolicyKey(b);
    PolicyKeyInjective(a, b);
  }

  lemma QuotaNameInjective(a: string, b: string)
    requires ValidId(a) && ValidId(b)
    requires QuotaName(a) == QuotaName(b)
    ensures a == b
  {
    var x, y := QuotaName(a), QuotaName(b);
    assert x[..|x| - 6] == PolicyKey(a) && y[..|y| - 6] == PolicyKey(b);
    PolicyKeyInjective(a, b);
  }

  predicate DistinctIds(policies: seq<Policy>) {
    forall i, j | 0 <= i < j < |policies| :: policies[i].id != policies[j].id
  }

  predicate AllBounded(policies: seq<Policy>) {
    forall i | 0 <= i < |policies| :: Bounded(policies[i])
  }
}

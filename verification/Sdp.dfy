/** Candidate and stream descriptions in SDP: the printer and the parser of agent.c (section 15.1 of
    RFC 5245, section 4.5 of RFC 6544). */
module Sdp {
  import opened SeqNum
  import opened Candidates

  datatype Option<T> = None | Some(value: T)
  datatype Candidate = Candidate(foundation: string, component: u32, transport: Transport, priority: u32,
                                 addr: Address, kind: Kind, base_addr: Option<Address>)

  /** Longest foundation kept by a candidate. */
  const MAX_FOUNDATION: nat := 32

  /* ---------- text ---------- */

  /** `g_strsplit` of a non-empty string. */
  function Pieces(s: string, d: char): (r: seq<string>)
    ensures r != []
  {
    if s == "" then [""]
    else
      var rest := Pieces(s[1..], d);
      if s[0] == d then [""] + rest else [[s[0]] + rest[0]] + rest[1..]
  }

  function Tokens(s: string, d: char): seq<string> {
    if s == "" then [] else Pieces(s, d)
  }

  function Join(ts: seq<string>, d: char): string {
    if ts == [] then "" else if |ts| == 1 then ts[0] else ts[0] + [d] + Join(ts[1..], d)
  }

  predicate Free(ts: seq<string>, d: char) {
    forall i :: 0 <= i < |ts| ==> d !in ts[i]
  }

  lemma {:induction false} PiecesOfPrefix(t: string, s: string, d: char)
    requires d !in t
    ensures Pieces(t + [d] + s, d) == [t] + Pieces(s, d)
    ensures Pieces(t, d) == [t]
  {
    if t != "" {
      PiecesOfPrefix(t[1..], s, d);
      assert (t + [d] + s)[1..] == t[1..] + [d] + s;
      assert [t[0]] + t[1..] == t;
      assert ([t[1..]] + Pieces(s, d))[1..] == Pieces(s, d);
    } else {
      assert t + [d] + s == [d] + s;
      assert ([d] + s)[1..] == s;
    }
  }

  /** Splitting undoes joining. */
  lemma {:induction false} PiecesOfJoin(ts: seq<string>, d: char)
    requires ts != [] && Free(ts, d)
    ensures Pieces(Join(ts, d), d) == ts
  {
    if |ts| == 1 {
      PiecesOfPrefix(ts[0], "", d);
      assert ts == [ts[0]];
    } else {
      PiecesOfJoin(ts[1..], d);
      PiecesOfPrefix(ts[0], Join(ts[1..], d), d);
      assert ts == [ts[0]] + ts[1..];
    }
  }

  /* ---------- numbers ---------- */

  const DIGITS: string := "0123456789"

  predicate IsDigit(c: char) {
    '0' <= c <= '9'
  }

  function Decimal(n: nat): (r: string)
    ensures r != "" && forall i :: 0 <= i < |r| ==> IsDigit(r[i])
  {
    (if n < 10 then "" else Decimal(n / 10)) + [DIGITS[n % 10]]
  }

  /** `printf` with `%d` of a 32-bit unsigned argument: values from 2^31 on come out negative. */
  function Signed(n: u32): (r: string)
    ensures r != "" && ' ' !in r && '\n' !in r
  {
    if n < HALF then Decimal(n) else "-" + Decimal(MODULUS - n)
  }

  const ULLONG_MAX: nat := 0xFFFF_FFFF_FFFF_FFFF

  /** The number that the digits at the start of `s` make. */
  function Value(s: string, acc: nat): nat {
    if s == "" || !IsDigit(s[0]) then acc else Value(s[1..], acc * 10 + (s[0] - '0') as nat)
  }

  function SkipSpace(s: string): string {
    if s != "" && (s[0] == ' ' || '\t' <= s[0] <= '\r') then SkipSpace(s[1..]) else s
  }

  /** `g_ascii_strtoull` in base 10: saturating, and a minus sign negates modulo 2^64. */
  function ParseUll(token: string): nat {
    var s := SkipSpace(token);
    var negative := s != "" && s[0] == '-';
    var digits := if s != "" && (s[0] == '-' || s[0] == '+') then s[1..] else s;
    var v := Value(digits, 0);
    if v > ULLONG_MAX then ULLONG_MAX
    else if negative && v > 0 then ULLONG_MAX + 1 - v
    else v
  }

  lemma {:induction false} ValueSplits(s: string, d: char, acc: nat)
    requires (forall i :: 0 <= i < |s| ==> IsDigit(s[i])) && IsDigit(d)
    ensures Value(s + [d], acc) == Value(s, acc) * 10 + (d - '0') as nat
    decreases |s|
  {
    if s == "" {
      assert s + [d] == [d] && [d][1..] == "";
      assert Value([d][1..], acc * 10 + (d - '0') as nat) == acc * 10 + (d - '0') as nat;
    } else {
      ValueSplits(s[1..], d, acc * 10 + (s[0] - '0') as nat);
      assert (s + [d])[1..] == s[1..] + [d];
    }
  }

  lemma {:induction false} ValueOfDecimal(n: nat)
    ensures Value(Decimal(n), 0) == n
  {
    if n < 10 {
      assert Decimal(n) == "" + [DIGITS[n % 10]];
      ValueSplits("", DIGITS[n % 10], 0);
    } else {
      ValueOfDecimal(n / 10);
      ValueSplits(Decimal(n / 10), DIGITS[n % 10], 0);
    }
  }

  /** A number is read back, or the largest one if it is too large. */
  lemma ParseDecimal(n: nat)
    ensures ParseUll(Decimal(n)) == if n <= ULLONG_MAX then n else 0xFFFF_FFFF_FFFF_FFFF
  {
    var s := Decimal(n);
    ValueOfDecimal(n);
    assert IsDigit(s[0]);
    assert SkipSpace(s) == s;
  }

  /** White space before a number and a plus sign make no difference. */
  lemma ParseSkips(c: char, s: string, n: nat)
    ensures c in {' ', '\t', '\n', '\r', '\U{0B}', '\U{0C}'} ==> ParseUll([c] + s) == ParseUll(s)
    ensures ParseUll("+" + Decimal(n)) == ParseUll(Decimal(n))
  {
    assert ([c] + s)[1..] == s;
    var t := "+" + Decimal(n);
    assert t[0] == '+' && t[1..] == Decimal(n) && SkipSpace(t) == t;
    assert IsDigit(Decimal(n)[0]) && SkipSpace(Decimal(n)) == Decimal(n);
  }

  lemma ParseMinus(n: nat)
    ensures ParseUll("-" + Decimal(n)) == if n == 0 then 0 else if n <= ULLONG_MAX then 0x1_0000_0000_0000_0000 - n else ULLONG_MAX
  {
    var s := "-" + Decimal(n);
    ValueOfDecimal(n);
    assert s[0] == '-' && s[1..] == Decimal(n);
    assert SkipSpace(s) == s;
  }

  /** A 32-bit number survives printing as signed and reading as unsigned 64-bit. */
  lemma SignedRoundTrip(n: u32)
    ensures Wrap(ParseUll(Signed(n))) == n
    ensures n < HALF ==> ParseUll(Signed(n)) == n
  {
    if n < HALF {
      ParseDecimal(n);
    } else {
      ParseMinus(MODULUS - n);
    }
  }

  /* ---------- candidates ---------- */

  function TransportName(t: Transport): string {
    if t == UDP then "UDP" else "TCP"
  }

  function TcpType(t: Transport): string {
    match t
    case UDP => ""
    case TCP_ACTIVE => "active"
    case TCP_PASSIVE => "passive"
    case TCP_SO => "so"
  }

  function KindName(k: Kind): string {
    match k
    case HOST => "host"
    case SERVER_REFLEXIVE => "srflx"
    case PEER_REFLEXIVE => "prflx"
    case RELAYED => "relay"
  }

  /** Port 0 is printed as the discard port. */
  function PrintedPort(p: u16): u16 {
    if p == 0 then 9 else p
  }

  predicate HasOwnBase(c: Candidate) {
    c.base_addr.Some? && c.base_addr.value != c.addr
  }

  function FirstWords(c: Candidate): seq<string> {
    [Cut(c.foundation, MAX_FOUNDATION + 1),
     Signed(c.component), TransportName(c.transport), Signed(c.priority), c.addr.ip,
     Signed(PrintedPort(c.addr.port)), "typ", KindName(c.kind)]
  }

  /** The words of a candidate line, in order. */
  function Words(c: Candidate): seq<string> {
    FirstWords(c)
    + (if HasOwnBase(c) then ["raddr", c.base_addr.value.ip, "rport", Signed(PrintedPort(c.base_addr.value.port))] else [])
    + (if c.transport != UDP then ["tcptype", TcpType(c.transport)] else [])
  }

  const CANDIDATE: string := "a=candidate:"

  /** `_generate_candidate_sdp`. */
  function Print(c: Candidate): string {
    CANDIDATE + Join(Words(c), ' ')
  }

  /** What the parser has picked up after the sixth word. */
  datatype Extras = Extras(kind: Option<string>, raddr: Option<string>, rport: u16, tcptype: Option<string>)

  const NOTHING: Extras := Extras(None, None, 0, None)

  function ToPort(token: string): u16 {
    ParseUll(token) % 0x1_0000
  }

  function Taken(x: Extras, key: string, value: string): Extras {
    if key == "typ" then x.(kind := Some(value))
    else if key == "raddr" then x.(raddr := Some(value))
    else if key == "rport" then x.(rport := ToPort(value))
    else if key == "tcptype" then x.(tcptype := Some(value))
    else x
  }

  /** The words after the sixth, two at a time; a key without a value is an error. */
  function Gathered(ts: seq<string>, i: nat, x: Extras): Option<Extras>
    decreases |ts| - i
  {
    if i >= |ts| then Some(x)
    else if i + 1 == |ts| then None
    else Gathered(ts, i + 2, Taken(x, ts[i], ts[i + 1]))
  }

  function ParseKind(s: string): Option<Kind> {
    if s == "host" then Some(HOST)
    else if s == "srflx" then Some(SERVER_REFLEXIVE)
    else if s == "prflx" then Some(PEER_REFLEXIVE)
    else if s == "relay" then Some(RELAYED)
    else None
  }

  function Upper(s: string): (r: string)
    ensures |r| == |s| && forall i :: 0 <= i < |s| ==>
              r[i] as int == s[i] as int - if 97 <= s[i] as int < 123 then 32 else 0
  {
    seq(|s|, i requires 0 <= i < |s| => if 'a' <= s[i] <= 'z' then 'A' + (s[i] - 'a') else s[i])
  }

  function ParseTcpType(s: string): Option<Transport> {
    if Upper(s) == "SO" then Some(TCP_SO)
    else if Upper(s) == "ACTIVE" then Some(TCP_ACTIVE)
    else if Upper(s) == "PASSIVE" then Some(TCP_PASSIVE)
    else None
  }

  function ParseTransport(name: string, tcptype: Option<string>): Option<Transport> {
    var n := Upper(name);
    if n == "UDP" then Some(UDP)
    else if n == "TCP-SO" then Some(TCP_SO)
    else if n == "TCP-ACT" then Some(TCP_ACTIVE)
    else if n == "TCP-PASS" then Some(TCP_PASSIVE)
    else if n == "TCP" then
      if tcptype == None then Some(TCP_SO) else ParseTcpType(tcptype.value)
    else None
  }

  /** What the words of a line stand for.  `isIp` tells the texts that are addresses. */
  function Built(ts: seq<string>, x: Extras, isIp: string -> bool): Option<Candidate> {
    if |ts| < 6 || x.kind == None then None
    else Assembled(ts, x, ParseKind(x.kind.value), ParseTransport(ts[2], x.tcptype), isIp)
  }

  function Assembled(ts: seq<string>, x: Extras, kind: Option<Kind>, transport: Option<Transport>,
                     isIp: string -> bool): Option<Candidate>
    requires |ts| >= 6
  {
    if kind == None || transport == None || !isIp(ts[4]) then None
    else
      var base := x.raddr.Some? && x.rport != 0;
      if base && !isIp(x.raddr.value) then None
      else
        Some(Candidate(Cut(ts[0], MAX_FOUNDATION), Wrap(ParseUll(ts[1])), transport.value, Wrap(ParseUll(ts[3])),
                       Address(ts[4], ToPort(ts[5])), kind.value,
                       if base then Some(Address(x.raddr.value, x.rport)) else None))
  }

  function Cut(s: string, n: nat): string {
    if |s| <= n then s else s[..n]
  }

  /** `nice_agent_parse_remote_candidate_sdp`. */
  function Parse(line: string, isIp: string -> bool): Option<Candidate> {
    if !(CANDIDATE <= line) then None
    else
      var ts := Tokens(line[|CANDIDATE|..], ' ');
      match Gathered(ts, 6, NOTHING)
      case None => None
      case Some(x) => Built(ts, x, isIp)
  }

  /** The parser's walk over the words. */
  method ParseLine(line: string, isIp: string -> bool) returns (c: Option<Candidate>)
    ensures c == Parse(line, isIp)
  {
    if !(CANDIDATE <= line) {
      return None;
    }
    var ts := Tokens(line[|CANDIDATE|..], ' ');
    var typ, raddr, tcptype: Option<string> := None, None, None;
    var rport, i := 0, 6;
    while i < |ts|
      invariant 6 <= i && 0 <= rport < 0x1_0000
      invariant Gathered(ts, i, Extras(typ, raddr, rport, tcptype)) == Gathered(ts, 6, NOTHING)
      decreases |ts| - i
    {
      if i + 1 == |ts| {
        return None;
      }
      if ts[i] == "typ" {
        typ := Some(ts[i + 1]);
      } else if ts[i] == "raddr" {
        raddr := Some(ts[i + 1]);
      } else if ts[i] == "rport" {
        rport := ParseUll(ts[i + 1]) % 0x1_0000;
      } else if ts[i] == "tcptype" {
        tcptype := Some(ts[i + 1]);
      }
      i := i + 2;
    }
    if |ts| < 6 || typ == None {
      return None;
    }
    c := Assemble(ts, typ.value, raddr, rport, tcptype, isIp);
  }

  /** The candidate that the words of a line describe. */
  method Assemble(ts: seq<string>, typ: string, raddr: Option<string>, rport: u16, tcptype: Option<string>,
                  isIp: string -> bool) returns (c: Option<Candidate>)
    requires |ts| >= 6
    ensures c == Built(ts, Extras(Some(typ), raddr, rport, tcptype), isIp)
  {
    var kind := FindKind(typ);
    var transport := FindTransport(ts[2], tcptype);
    if kind == None || transport == None || !isIp(ts[4]) {
      return None;
    }
    var base: Option<Address> := None;
    if raddr.Some? && rport > 0 {
      if !isIp(raddr.value) {
        return None;
      }
      base := Some(Address(raddr.value, rport));
    }
    var foundation := if |ts[0]| > MAX_FOUNDATION then ts[0][..MAX_FOUNDATION] else ts[0];
    var addr := Address(ts[4], ParseUll(ts[5]) % 0x1_0000);
    c := Some(Candidate(foundation, ParseUll(ts[1]) % MODULUS, transport.value, ParseUll(ts[3]) % MODULUS, addr, kind.value, base));
  }

  const TYPE_NAMES: seq<string> := ["host", "srflx", "prflx", "relay"]

  method FindKind(typ: string) returns (kind: Option<Kind>)
    ensures kind == ParseKind(typ)
  {
    var kinds := [HOST, SERVER_REFLEXIVE, PEER_REFLEXIVE, RELAYED];
    for i := 0 to 4
      invariant forall j :: 0 <= j < i ==> typ != TYPE_NAMES[j]
    {
      if typ == TYPE_NAMES[i] {
        return Some(kinds[i]);
      }
    }
    assert typ != TYPE_NAMES[0] && typ != TYPE_NAMES[1] && typ != TYPE_NAMES[2] && typ != TYPE_NAMES[3];
    kind := None;
  }

  method FindTransport(name: string, tcptype: Option<string>) returns (transport: Option<Transport>)
    ensures transport == ParseTransport(name, tcptype)
  {
    var upper := Upper(name);
    transport := None;
    if upper == "UDP" {
      transport := Some(UDP);
    } else if upper == "TCP-SO" {
      transport := Some(TCP_SO);
    } else if upper == "TCP-ACT" {
      transport := Some(TCP_ACTIVE);
    } else if upper == "TCP-PASS" {
      transport := Some(TCP_PASSIVE);
    } else if upper == "TCP" {
      // comparing a missing tcptype gives 0, as if it were equal to the first name tried
      if tcptype == None || Upper(tcptype.value) == "SO" {
        transport := Some(TCP_SO);
      } else if Upper(tcptype.value) == "ACTIVE" {
        transport := Some(TCP_ACTIVE);
      } else if Upper(tcptype.value) == "PASSIVE" {
        transport := Some(TCP_PASSIVE);
      }
    }
  }

  /** What the other side learns of a candidate: port 0 as 9, and the base only if it differs. */
  function Seen(c: Candidate): Candidate {
    c.(addr := Visible(c.addr),
       base_addr := if c.base_addr == None || c.base_addr == Some(c.addr) then None else Some(Visible(c.base_addr.value)))
  }

  function Visible(a: Address): Address {
    if a.port != 0 then a else a.(port := 9)
  }

  predicate AddressOk(a: Address, isIp: string -> bool) {
    isIp(a.ip) && ' ' !in a.ip && '\n' !in a.ip
  }

  predicate Printable(c: Candidate, isIp: string -> bool) {
    && ' ' !in c.foundation && '\n' !in c.foundation && |c.foundation| <= MAX_FOUNDATION
    && AddressOk(c.addr, isIp) && (c.base_addr.Some? ==> AddressOk(c.base_addr.value, isIp))
  }

  predicate Plain(s: string) {
    ' ' !in s && '\n' !in s
  }

  predicate AllPlain(ts: seq<string>) {
    forall i :: 0 <= i < |ts| ==> Plain(ts[i])
  }

  lemma NamesArePlain(c: Candidate)
    ensures Plain(TransportName(c.transport)) && Plain(KindName(c.kind)) && Plain(TcpType(c.transport))
    ensures Plain("typ") && Plain("raddr") && Plain("rport") && Plain("tcptype")
  {
  }

  lemma WordsAreFree(c: Candidate, isIp: string -> bool)
    requires Printable(c, isIp)
    ensures Free(Words(c), ' ') && Free(Words(c), '\n')
  {
    NamesArePlain(c);
    var base := if HasOwnBase(c) then ["raddr", c.base_addr.value.ip, "rport", Signed(PrintedPort(c.base_addr.value.port))] else [];
    var tcp := if c.transport != UDP then ["tcptype", TcpType(c.transport)] else [];
    var head := FirstWords(c);
    assert AllPlain(Words(c));
  }

  lemma PortRoundTrip(p: u16)
    ensures ToPort(Signed(p)) == p
  {
    SignedRoundTrip(p);
  }

  /** The words after the sixth give the extras back. */
  lemma WordsGather(c: Candidate)
    ensures Gathered(Words(c), 6, NOTHING) == Some(ExtrasOf(c))
  {
    var ws := Words(c);
    var x := Taken(NOTHING, "typ", KindName(c.kind));
    assert Gathered(ws, 6, NOTHING) == Gathered(ws, 8, x);
    if HasOwnBase(c) {
      PortRoundTrip(PrintedPort(c.base_addr.value.port));
      var y := Taken(x, "raddr", ws[9]);
      var z := Taken(y, "rport", ws[11]);
      assert Gathered(ws, 8, x) == Gathered(ws, 10, y) == Gathered(ws, 12, z);
      if c.transport != UDP {
        assert ws[12] == "tcptype" && |ws| == 14;
        assert Gathered(ws, 12, z) == Gathered(ws, 14, Taken(z, "tcptype", ws[13]));
      }
    } else if c.transport != UDP {
      assert ws[8] == "tcptype" && |ws| == 10;
      assert Gathered(ws, 8, x) == Gathered(ws, 10, Taken(x, "tcptype", ws[9]));
    }
  }

  function ExtrasOf(c: Candidate): Extras {
    Extras(Some(KindName(c.kind)),
           if HasOwnBase(c) then Some(c.base_addr.value.ip) else None,
           if HasOwnBase(c) then PrintedPort(c.base_addr.value.port) else 0,
           if c.transport == UDP then None else Some(TcpType(c.transport)))
  }

  lemma TransportRoundTrip(t: Transport)
    ensures ParseTransport(TransportName(t), if t == UDP then None else Some(TcpType(t))) == Some(t)
  {
    assert Upper("UDP") == "UDP" && Upper("TCP") == "TCP";
    assert Upper("so") == "SO" && Upper("active") == "ACTIVE" && Upper("passive") == "PASSIVE";
  }

  lemma BuiltBack(c: Candidate, isIp: string -> bool)
    requires Printable(c, isIp)
    ensures Built(Words(c), ExtrasOf(c), isIp) == Some(Seen(c))
  {
    var ws := Words(c);
    TransportRoundTrip(c.transport);
    assert ParseKind(KindName(c.kind)) == Some(c.kind);
    AssembledBack(ws, c, isIp);
  }

  lemma AssembledBack(ws: seq<string>, c: Candidate, isIp: string -> bool)
    requires Printable(c, isIp) && |ws| >= 6
    requires ws[0] == c.foundation && ws[1] == Signed(c.component) && ws[3] == Signed(c.priority)
    requires ws[4] == c.addr.ip && ws[5] == Signed(PrintedPort(c.addr.port))
    ensures Assembled(ws, ExtrasOf(c), Some(c.kind), Some(c.transport), isIp) == Some(Seen(c))
  {
    SignedRoundTrip(c.component);
    SignedRoundTrip(c.priority);
    PortRoundTrip(PrintedPort(c.addr.port));
  }

  lemma WordsOfPrinted(c: Candidate, isIp: string -> bool)
    requires Printable(c, isIp)
    ensures CANDIDATE <= Print(c) && Tokens(Print(c)[|CANDIDATE|..], ' ') == Words(c)
  {
    WordsAreFree(c, isIp);
    PiecesOfJoin(Words(c), ' ');
    assert Print(c)[|CANDIDATE|..] == Join(Words(c), ' ');
    assert |Words(c)| > 1;
  }

  /** Parsing a printed candidate line gives the candidate back. */
  lemma CandidateRoundTrip(c: Candidate, isIp: string -> bool)
    requires Printable(c, isIp)
    ensures Parse(Print(c), isIp) == Some(Seen(c))
  {
    WordsOfPrinted(c, isIp);
    WordsGather(c);
    BuiltBack(c, isIp);
  }

  /** The words of a TCP candidate's line up to the tcptype. */
  function Untyped(c: Candidate): (ws: seq<string>)
    requires c.transport != UDP
    ensures ws == Words(c.(transport := UDP))[2 := "TCP"] && |ws| >= 8
  {
    Words(c)[..|Words(c)| - 2]
  }

  /** The words of two lines. */
  lemma WordsExample()
    ensures Words(Candidate("1", 2, UDP, 37, Address("192.0.2.1", 5), HOST, None))
         == ["1", "2", "UDP", "37", "192.0.2.1", "5", "typ", "host"]
    ensures Words(Candidate("1", 2, TCP_ACTIVE, 37, Address("192.0.2.1", 0), SERVER_REFLEXIVE, Some(Address("10.0.0.1", 5))))
         == ["1", "2", "TCP", "37", "192.0.2.1", "9", "typ", "srflx", "raddr", "10.0.0.1", "rport", "5", "tcptype", "active"]
  {
    assert Decimal(2) == "2" && Decimal(3) == "3" && Decimal(5) == "5" && Decimal(37) == "37" && Decimal(9) == "9";
  }

  /** A TCP candidate whose line breaks off before the tcptype is read as TCP-SO, whatever it was. */
  lemma MissingTcpType(c: Candidate, isIp: string -> bool)
    requires Printable(c, isIp) && c.transport != UDP
    ensures Parse(CANDIDATE + Join(Untyped(c), ' '), isIp) == Some(Seen(c).(transport := TCP_SO))
  {
    var ws, u := Untyped(c), c.(transport := UDP);
    WordsAreFree(c, isIp);
    PiecesOfJoin(ws, ' ');
    assert (CANDIDATE + Join(ws, ' '))[|CANDIDATE|..] == Join(ws, ' ');
    WordsGather(u);
    GatherSame(ws, Words(u), 6, NOTHING);
    UntypedBuilt(c, isIp);
  }

  lemma UntypedBuilt(c: Candidate, isIp: string -> bool)
    requires Printable(c, isIp) && c.transport != UDP
    ensures Built(Untyped(c), ExtrasOf(c.(transport := UDP)), isIp) == Some(Seen(c).(transport := TCP_SO))
  {
    var so := c.(transport := TCP_SO);
    assert Upper("TCP") == "TCP";
    assert ParseKind(KindName(c.kind)) == Some(c.kind);
    AssembledBack(Untyped(c), so, isIp);
  }

  lemma {:induction false} GatherSame(ts: seq<string>, us: seq<string>, i: nat, x: Extras)
    requires |ts| == |us| && forall j :: i <= j < |ts| ==> ts[j] == us[j]
    ensures Gathered(ts, i, x) == Gathered(us, i, x)
    decreases |ts| - i
  {
    if i + 1 < |ts| {
      GatherSame(ts, us, i + 2, Taken(x, ts[i], ts[i + 1]));
    }
  }

  /* ---------- streams ---------- */

  const UFRAG: string := "a=ice-ufrag:"
  const PWD: string := "a=ice-pwd:"

  /** The lines that are not about ICE: media, address and, if there is one, the RTCP port. */
  datatype NonIce = NonIce(name: string, port: u16, ip: string, rtcp: u16)

  function NonIceLines(n: NonIce): seq<string> {
    ["m=" + n.name + " " + Signed(n.port) + " ICE/SDP", "c=IN IP4 " + n.ip]
    + if n.rtcp != 0 then ["a=rtcp:" + Signed(n.rtcp)] else []
  }

  /** There is a line for RTCP exactly if there is a port for it. */
  lemma RtcpLine(n: NonIce)
    ensures |NonIceLines(n)| == if n.rtcp == 0 then 2 else 3
    ensures n.rtcp > 0 ==> NonIceLines(n)[2] == "a=rtcp:" + Decimal(n.rtcp)
  {
  }

  function CandidateLines(cs: seq<Candidate>): seq<string> {
    seq(|cs|, i requires 0 <= i < |cs| => Print(cs[i]))
  }

  function StreamLines(n: Option<NonIce>, ufrag: string, pwd: string, cs: seq<Candidate>): seq<string> {
    (if n.Some? then NonIceLines(n.value) else []) + [UFRAG + ufrag, PWD + pwd] + CandidateLines(cs)
  }

  /** `_generate_stream_sdp`: every line ends with a newline. */
  function PrintStream(n: Option<NonIce>, ufrag: string, pwd: string, cs: seq<Candidate>): string {
    Join(StreamLines(n, ufrag, pwd, cs) + [""], '\n')
  }

  datatype Stream = Stream(ufrag: Option<string>, pwd: Option<string>, candidates: seq<Candidate>)

  /** One line: new candidates go in front, and a bad one ends the parse without any. */
  function Line(s: Stream, line: string, isIp: string -> bool): (Stream, bool) {
    if UFRAG <= line then (s.(ufrag := Some(line[|UFRAG|..])), true)
    else if PWD <= line then (s.(pwd := Some(line[|PWD|..])), true)
    else if CANDIDATE <= line then
      match Parse(line, isIp)
      case None => (s.(candidates := []), false)
      case Some(c) => (s.(candidates := [c] + s.candidates), true)
    else (s, true)
  }

  function Lines(ls: seq<string>, s: Stream, isIp: string -> bool): Stream
    decreases |ls|
  {
    if ls == [] then s
    else
      var (t, more) := Line(s, ls[0], isIp);
      if more then Lines(ls[1..], t, isIp) else t
  }

  /** `nice_agent_parse_remote_stream_sdp`. */
  method ParseStream(sdp: string, isIp: string -> bool) returns (s: Stream)
    ensures s == Lines(Tokens(sdp, '\n'), Stream(None, None, []), isIp)
  {
    s := Stream(None, None, []);
    var lines := Tokens(sdp, '\n');
    for i := 0 to |lines|
      invariant Lines(lines[i..], s, isIp) == Lines(lines, Stream(None, None, []), isIp)
    {
      assert lines[i..][1..] == lines[i + 1..];
      var line := lines[i];
      if UFRAG <= line {
        s := s.(ufrag := Some(line[12..]));
      } else if PWD <= line {
        s := s.(pwd := Some(line[10..]));
      } else if CANDIDATE <= line {
        var c := ParseLine(line, isIp);
        if c == None {
          s := s.(candidates := []);
          return;
        }
        s := s.(candidates := [c.value] + s.candidates);
      }
    }
  }

  function Reversed(cs: seq<Candidate>): seq<Candidate> {
    if cs == [] then [] else Reversed(cs[1..]) + [cs[0]]
  }

  function SeenAll(cs: seq<Candidate>): seq<Candidate> {
    seq(|cs|, i requires 0 <= i < |cs| => Seen(cs[i]))
  }

  /** A line that adds candidate `c`. */
  predicate Adds(line: string, c: Candidate, isIp: string -> bool) {
    CANDIDATE <= line && !(UFRAG <= line) && !(PWD <= line) && Parse(line, isIp) == Some(c)
  }

  lemma {:induction false} AddingLines(ls: seq<string>, cs: seq<Candidate>, s: Stream, isIp: string -> bool)
    requires |ls| == |cs| && forall i :: 0 <= i < |ls| ==> Adds(ls[i], cs[i], isIp)
    ensures Lines(ls + [""], s, isIp) == s.(candidates := Reversed(cs) + s.candidates)
    decreases |cs|
  {
    if cs == [] {
      LastLine(ls, s, isIp);
    } else {
      assert Adds(ls[0], cs[0], isIp);
      AddingLine(ls[0], cs[0], s, isIp);
      assert (ls + [""])[0] == ls[0] && (ls + [""])[1..] == ls[1..] + [""];
      AddingLines(ls[1..], cs[1..], s.(candidates := [cs[0]] + s.candidates), isIp);
      ReversedCons(cs, s.candidates);
    }
  }

  lemma LastLine(ls: seq<string>, s: Stream, isIp: string -> bool)
    requires ls == []
    ensures Lines(ls + [""], s, isIp) == s.(candidates := Reversed([]) + s.candidates)
  {
  }

  lemma AddingLine(line: string, c: Candidate, s: Stream, isIp: string -> bool)
    requires Adds(line, c, isIp)
    ensures Line(s, line, isIp) == (s.(candidates := [c] + s.candidates), true)
  {
  }

  lemma ReversedCons(cs: seq<Candidate>, tail: seq<Candidate>)
    requires cs != []
    ensures Reversed(cs[1..]) + ([cs[0]] + tail) == Reversed(cs) + tail
  {
  }

  lemma CandidateLinesParse(cs: seq<Candidate>, s: Stream, isIp: string -> bool)
    requires forall i :: 0 <= i < |cs| ==> Printable(cs[i], isIp)
    ensures Lines(CandidateLines(cs) + [""], s, isIp) == s.(candidates := Reversed(SeenAll(cs)) + s.candidates)
  {
    forall i | 0 <= i < |cs| ensures Adds(CandidateLines(cs)[i], SeenAll(cs)[i], isIp) {
      PrintedAdds(cs[i], isIp);
    }
    AddingLines(CandidateLines(cs), SeenAll(cs), s, isIp);
  }

  lemma PrintedAdds(c: Candidate, isIp: string -> bool)
    requires Printable(c, isIp)
    ensures Adds(Print(c), Seen(c), isIp)
  {
    CandidateRoundTrip(c, isIp);
    NotCredentials(Print(c));
  }

  lemma NotCredentials(line: string)
    requires CANDIDATE <= line
    ensures !(UFRAG <= line) && !(PWD <= line)
  {
    assert line[2] == CANDIDATE[2] == 'c';
    assert UFRAG[2] == 'i' && PWD[2] == 'i';
  }

  lemma NonIceLinesSkipped(n: NonIce, rest: seq<string>, s: Stream, isIp: string -> bool)
    ensures Lines(NonIceLines(n) + rest, s, isIp) == Lines(rest, s, isIp)
  {
    var ls := NonIceLines(n);
    forall i | 0 <= i < |ls| ensures Line(s, ls[i], isIp) == (s, true) {
      assert ls[0][0] == 'm' && ls[1][0] == 'c' && (i == 2 ==> ls[i][2] == 'r');
      assert UFRAG[0] == 'a' && PWD[0] == 'a' && CANDIDATE[0] == 'a';
      assert UFRAG[2] == 'i' && PWD[2] == 'i' && CANDIDATE[2] == 'c';
    }
    SkipLines(ls, rest, s, isIp);
  }

  lemma {:induction false} SkipLines(ls: seq<string>, rest: seq<string>, s: Stream, isIp: string -> bool)
    requires forall i :: 0 <= i < |ls| ==> Line(s, ls[i], isIp) == (s, true)
    ensures Lines(ls + rest, s, isIp) == Lines(rest, s, isIp)
  {
    if ls == [] {
      assert ls + rest == rest;
    } else {
      assert (ls + rest)[1..] == ls[1..] + rest;
      SkipLines(ls[1..], rest, s, isIp);
    }
  }

  predicate StreamPrintable(n: Option<NonIce>, ufrag: string, pwd: string, cs: seq<Candidate>, isIp: string -> bool) {
    && (n.Some? ==> '\n' !in n.value.name && '\n' !in n.value.ip)
    && '\n' !in ufrag && '\n' !in pwd
    && forall i :: 0 <= i < |cs| ==> Printable(cs[i], isIp)
  }

  /** Parsing a printed stream gives the credentials back, and the candidates in reverse order. */
  lemma StreamRoundTrip(n: Option<NonIce>, ufrag: string, pwd: string, cs: seq<Candidate>, isIp: string -> bool)
    requires StreamPrintable(n, ufrag, pwd, cs, isIp)
    ensures Lines(Tokens(PrintStream(n, ufrag, pwd, cs), '\n'), Stream(None, None, []), isIp)
         == Stream(Some(ufrag), Some(pwd), Reversed(SeenAll(cs)))
  {
    StreamLinesFree(n, ufrag, pwd, cs, isIp);
    TokensOfLines(StreamLines(n, ufrag, pwd, cs));
    StreamLinesParse(n, ufrag, pwd, cs, isIp);
  }

  lemma TokensOfLines(ls: seq<string>)
    requires ls != [] && Free(ls + [""], '\n')
    ensures Tokens(Join(ls + [""], '\n'), '\n') == ls + [""]
  {
    PiecesOfJoin(ls + [""], '\n');
  }

  lemma StreamLinesParse(n: Option<NonIce>, ufrag: string, pwd: string, cs: seq<Candidate>, isIp: string -> bool)
    requires forall i :: 0 <= i < |cs| ==> Printable(cs[i], isIp)
    ensures Lines(StreamLines(n, ufrag, pwd, cs) + [""], Stream(None, None, []), isIp)
         == Stream(Some(ufrag), Some(pwd), Reversed(SeenAll(cs)))
  {
    CredentialsParse(ufrag, pwd, cs, isIp);
    var head := if n.Some? then NonIceLines(n.value) else [];
    Regroup(head, [UFRAG + ufrag, PWD + pwd], CandidateLines(cs), [""]);
    if n.Some? {
      NonIceLinesSkipped(n.value, [UFRAG + ufrag, PWD + pwd] + (CandidateLines(cs) + [""]), Stream(None, None, []), isIp);
    }
  }

  lemma Regroup(a: seq<string>, b: seq<string>, c: seq<string>, d: seq<string>)
    ensures a + b + c + d == a + (b + (c + d)) && (a == [] ==> a + b + c + d == b + (c + d))
  {
  }

  lemma CredentialsParse(ufrag: string, pwd: string, cs: seq<Candidate>, isIp: string -> bool)
    requires forall i :: 0 <= i < |cs| ==> Printable(cs[i], isIp)
    ensures Lines([UFRAG + ufrag, PWD + pwd] + (CandidateLines(cs) + [""]), Stream(None, None, []), isIp)
         == Stream(Some(ufrag), Some(pwd), Reversed(SeenAll(cs)))
  {
    var s, tail := Stream(None, None, []), CandidateLines(cs) + [""];
    var all := [UFRAG + ufrag, PWD + pwd] + tail;
    assert (UFRAG + ufrag)[|UFRAG|..] == ufrag && (PWD + pwd)[|PWD|..] == pwd;
    var s1 := s.(ufrag := Some(ufrag));
    assert Line(s, all[0], isIp) == (s1, true);
    var s2 := s1.(pwd := Some(pwd));
    assert (PWD + pwd)[6] == 'p' && UFRAG[6] == 'u';
    assert Line(s1, all[1], isIp) == (s2, true);
    assert all[1..][1..] == tail && all[1..][0] == PWD + pwd;
    CandidateLinesParse(cs, s2, isIp);
    assert Reversed(SeenAll(cs)) + [] == Reversed(SeenAll(cs));
  }

  lemma StreamLinesFree(n: Option<NonIce>, ufrag: string, pwd: string, cs: seq<Candidate>, isIp: string -> bool)
    requires StreamPrintable(n, ufrag, pwd, cs, isIp)
    ensures Free(StreamLines(n, ufrag, pwd, cs) + [""], '\n')
  {
    var head := if n.Some? then NonIceLines(n.value) else [];
    if n.Some? {
      NonIceLinesFree(n.value);
    }
    CredentialsFree(ufrag, pwd);
    CandidateLinesFree(cs, isIp);
    FreeAppend(head, [UFRAG + ufrag, PWD + pwd]);
    FreeAppend(head + [UFRAG + ufrag, PWD + pwd], CandidateLines(cs));
    FreeAppend(StreamLines(n, ufrag, pwd, cs), [""]);
  }

  lemma FreeAppend(a: seq<string>, b: seq<string>)
    requires Free(a, '\n') && Free(b, '\n')
    ensures Free(a + b, '\n')
  {
  }

  lemma NonIceLinesFree(n: NonIce)
    requires '\n' !in n.name && '\n' !in n.ip
    ensures Free(NonIceLines(n), '\n')
  {
  }

  lemma CredentialsFree(ufrag: string, pwd: string)
    requires '\n' !in ufrag && '\n' !in pwd
    ensures Free([UFRAG + ufrag, PWD + pwd], '\n')
  {
  }

  lemma CandidateLinesFree(cs: seq<Candidate>, isIp: string -> bool)
    requires forall i :: 0 <= i < |cs| ==> Printable(cs[i], isIp)
    ensures Free(CandidateLines(cs), '\n')
  {
    forall i | 0 <= i < |cs| ensures '\n' !in CandidateLines(cs)[i] {
      WordsAreFree(cs[i], isIp);
      JoinFree(Words(cs[i]));
    }
  }

  lemma {:induction false} JoinFree(ts: seq<string>)
    requires Free(ts, '\n')
    ensures '\n' !in Join(ts, ' ')
  {
    if |ts| > 1 {
      JoinFree(ts[1..]);
    }
  }
}

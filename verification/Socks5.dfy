/** The handshake of socks5_proxy_server.c (section 3 of RFC 1928, section 2 of RFC 1929): each state asks for a number of
    bytes and gets exactly these. */
module Socks5 {

  import opened Bytes
  import opened Collections
  import ReadBuf

  const SOCKS5_VERSION: byte := 5
  const SOCKS5_AUTH_VERSION: byte := 1
  const CONNECT_COMMAND: byte := 1
  const IPV4_ADDR: byte := 1
  const FQDN_ADDR: byte := 3
  const IPV6_ADDR: byte := 4
  const MAX_READ_BUFSIZE := 0x100_0000
  /** The greeting, the credentials and the request, each with the longest lists and names. */
  const MAX_HANDSHAKE := (2 + 255) + (2 + 255 + 1 + 255) + (5 + 255 + 2)

  /** What the server was started with: two arguments, or none. */
  datatype Credentials = Credentials(username: seq<byte>, password: seq<byte>)

  datatype State =
    | AuthMethodsCount | AuthMethods
    | UsernameLen | Username | PasswordLen | Password
    | Request | DstAddrType | DstAddrLen | DstAddr | DstPort
    | Upstream | Closed

  /** `socks5_conn_t`, with the number of bytes asked for last. */
  datatype Conn = Conn(state: State, need: nat, addrType: byte, addr: seq<byte>, port: nat)

  const START := Conn(AuthMethodsCount, 2, 0, [], 0)

  /** The bytes a state has asked for; the credentials are asked for only when some are configured. */
  predicate Asked(auth: Option<Credentials>, c: Conn) {
    0 < c.need < 256 && (c.state in {UsernameLen, Username, PasswordLen, Password} ==> auth.Some?) &&
    match c.state
    case AuthMethodsCount => c.need == 2
    case UsernameLen => c.need == 2
    case Request => c.need == 3
    case PasswordLen => c.need == 1
    case DstAddrType => c.need == 1
    case DstAddrLen => c.need == 1 && c.addrType == FQDN_ADDR
    case DstAddr => (c.addrType == IPV4_ADDR ==> c.need == 4) && (c.addrType == IPV6_ADDR ==> c.need == 16)
    case DstPort => c.need == 2
    case _ => true
  }

  // ------------------------------------------------------------ the protocol

  /** Version 5 and a list of methods, not empty: its length, or 0. */
  function GreetingLen(s: seq<byte>): (n: nat)
    ensures n <= |s|
  {
    if |s| >= 2 && s[0] == SOCKS5_VERSION && s[1] != 0 && |s| >= 2 + s[1] as nat then 2 + s[1] as nat else 0
  }

  /** A name of its own length. */
  predicate Named(s: seq<byte>, name: seq<byte>) {
    |s| >= 1 && s[0] as nat == |name| > 0 && |s| >= 1 + |name| && s[1..1 + |name|] == name
  }

  /** The subnegotiation with exactly these credentials. */
  predicate Authenticated(s: seq<byte>, k: Credentials) {
    && |s| >= 2 && s[0] == SOCKS5_AUTH_VERSION && s[1] as nat == |k.username| > 0
    && |s| >= 2 + |k.username| && s[2..2 + |k.username|] == k.username && Named(s[2 + |k.username|..], k.password)
  }

  function AuthLen(k: Credentials): nat { 3 + |k.username| + |k.password| }

  /** A connect request: the length of its head and address, or 0. An IPv4 address has 4 bytes, an IPv6 one 16, a name is
      preceded by its length, which is not 0. */
  function RequestLen(s: seq<byte>): (n: nat)
    ensures n <= |s|
  {
    if |s| < 4 || s[0] != SOCKS5_VERSION || s[1] != CONNECT_COMMAND then 0
    else if s[3] == IPV4_ADDR then if |s| >= 10 then 10 else 0
    else if s[3] == IPV6_ADDR then if |s| >= 22 then 22 else 0
    else if s[3] == FQDN_ADDR && |s| >= 5 && s[4] != 0 && |s| >= 7 + s[4] as nat then 7 + s[4] as nat
    else 0
  }

  /** `s` begins with a whole handshake. */
  predicate Handshake(auth: Option<Credentials>, s: seq<byte>) {
    var g := GreetingLen(s);
    g > 0 &&
    match auth
    case None => RequestLen(s[g..]) > 0
    case Some(k) => Authenticated(s[g..], k) && |s| >= g + AuthLen(k) && RequestLen(s[g + AuthLen(k)..]) > 0
  }

  /** Whether the name of a request, if it has one, is found, and whether the connection upstream comes about. */
  datatype Outcome = Outcome(resolves: bool, connects: bool)

  /** A request that is granted: all goes well that it needs. */
  predicate Granted(s: seq<byte>, o: Outcome) {
    RequestLen(s) > 0 && o.connects && (s[3] == FQDN_ADDR ==> o.resolves)
  }

  /** Where a connection upstream goes. */
  datatype Target = Target(addrType: byte, addr: seq<byte>, port: nat)

  /** A port, its high byte first. */
  function Port(s: seq<byte>): nat
    requires |s| >= 2
  {
    s[0] as nat * 256 + s[1] as nat
  }

  /** What a request asks for: the port comes last, the address is all between it and the head. */
  function Requested(s: seq<byte>): Target
    requires RequestLen(s) > 0
  {
    var end := RequestLen(s) - 2;
    Target(s[3], s[if s[3] == FQDN_ADDR then 5 else 4..end], Port(s[end..]))
  }

  function Grants(s: seq<byte>, o: Outcome): Option<Target> { if Granted(s, o) then Some(Requested(s)) else None }

  /** Where the request of a handshake begins. */
  function RequestAt(auth: Option<Credentials>, s: seq<byte>): nat { GreetingLen(s) + if auth.Some? then AuthLen(auth.value) else 0 }

  /** `s` begins with a whole handshake whose request is granted. */
  predicate Served(auth: Option<Credentials>, s: seq<byte>, o: Outcome) {
    Handshake(auth, s) && Granted(s[RequestAt(auth, s)..], o)
  }

  /** What it is served with. */
  function Serves(auth: Option<Credentials>, s: seq<byte>, o: Outcome): Option<Target> {
    if Served(auth, s, o) then Some(Requested(s[RequestAt(auth, s)..])) else None
  }

  // ------------------------------------------------------------ the server

  function CloseConn(c: Conn): Conn { Conn(Closed, 1, c.addrType, c.addr, c.port) }

  function Go(c: Conn, state: State, need: nat): Conn { Conn(state, need, c.addrType, c.addr, c.port) }

  /** What on_recv makes of the bytes it has asked for. */
  function Step(auth: Option<Credentials>, c: Conn, bytes: seq<byte>, o: Outcome): (d: Conn)
    requires Asked(auth, c) && |bytes| == c.need
    ensures Asked(auth, d)
  {
    match c.state
    case AuthMethodsCount =>
      if bytes[0] != SOCKS5_VERSION || bytes[1] == 0 then CloseConn(c) else Go(c, AuthMethods, bytes[1] as nat)
    case AuthMethods => if auth.Some? then Go(c, UsernameLen, 2) else Go(c, Request, 3)
    case UsernameLen =>
      if bytes[0] != SOCKS5_AUTH_VERSION || bytes[1] == 0 then CloseConn(c) else Go(c, Username, bytes[1] as nat)
    case Username => if bytes != auth.value.username then CloseConn(c) else Go(c, PasswordLen, 1)
    case PasswordLen => if bytes[0] == 0 then CloseConn(c) else Go(c, Password, bytes[0] as nat)
    case Password => if bytes != auth.value.password then CloseConn(c) else Go(c, Request, 3)
    case Request =>
      if bytes[0] != SOCKS5_VERSION || bytes[1] != CONNECT_COMMAND then CloseConn(c) else Go(c, DstAddrType, 1)
    case DstAddrType =>
      var d := Conn(DstAddr, 1, bytes[0], c.addr, c.port);
      if bytes[0] == IPV4_ADDR then Go(d, DstAddr, 4)
      else if bytes[0] == FQDN_ADDR then Go(d, DstAddrLen, 1)
      else if bytes[0] == IPV6_ADDR then Go(d, DstAddr, 16)
      else CloseConn(d)
    case DstAddrLen => if bytes[0] == 0 then CloseConn(c) else Go(c, DstAddr, bytes[0] as nat)
    case DstAddr =>
      if c.addrType != IPV4_ADDR && c.addrType != IPV6_ADDR && !o.resolves then CloseConn(c)
      else Conn(DstPort, 2, c.addrType, bytes, c.port)
    case DstPort => var d := Conn(Upstream, 1, c.addrType, c.addr, bytes[0] as nat * 256 + bytes[1] as nat); if o.connects then d else CloseConn(d)
    case _ => c
  }

  /** The upstream that is reached from `c` by what is still to come. */
  function Reaches(auth: Option<Credentials>, c: Conn, s: seq<byte>, o: Outcome): Option<Target>
    requires Asked(auth, c)
    decreases |s|
  {
    if c.state == Upstream then Some(Target(c.addrType, c.addr, c.port))
    else if c.state == Closed || |s| < c.need then None
    else Reaches(auth, Step(auth, c, s[..c.need], o), s[c.need..], o)
  }

  lemma PortReaches(auth: Option<Credentials>, c: Conn, s: seq<byte>, o: Outcome)
    requires Asked(auth, c) && c.state == DstPort
    ensures Reaches(auth, c, s, o) == if |s| >= 2 && o.connects then Some(Target(c.addrType, c.addr, Port(s))) else None
  {
  }

  lemma AddrReaches(auth: Option<Credentials>, c: Conn, s: seq<byte>, o: Outcome)
    requires Asked(auth, c) && c.state == DstAddr
    ensures Reaches(auth, c, s, o) ==
      if |s| >= c.need + 2 && o.connects && (c.addrType == IPV4_ADDR || c.addrType == IPV6_ADDR || o.resolves)
      then Some(Target(c.addrType, s[..c.need], Port(s[c.need..]))) else None
  {
    if |s| >= c.need {
      var d := Step(auth, c, s[..c.need], o);
      if d.state == DstPort { PortReaches(auth, d, s[c.need..], o); }
    }
  }

  lemma LenReaches(auth: Option<Credentials>, c: Conn, s: seq<byte>, o: Outcome)
    requires Asked(auth, c) && c.state == DstAddrLen
    ensures Reaches(auth, c, s, o) ==
      if |s| >= 1 && s[0] != 0 && |s| >= 3 + s[0] as nat && o.connects && o.resolves
      then Some(Target(FQDN_ADDR, s[1..][..s[0]], Port(s[1..][s[0]..]))) else None
  {
    if |s| >= 1 {
      var d := Step(auth, c, s[..1], o);
      if d.state == DstAddr { AddrReaches(auth, d, s[1..], o); }
    }
  }

  /** The type of an address, the address and a port. */
  predicate Addressed(s: seq<byte>) {
    |s| >= 1 &&
    if s[0] == IPV4_ADDR then |s| >= 7
    else if s[0] == IPV6_ADDR then |s| >= 19
    else s[0] == FQDN_ADDR && |s| >= 2 && s[1] != 0 && |s| >= 4 + s[1] as nat
  }

  function AddressedTo(s: seq<byte>): Target
    requires Addressed(s)
  {
    var t := if s[0] == FQDN_ADDR then s[1..][1..] else s[1..];
    var n := if s[0] == IPV4_ADDR then 4 else if s[0] == IPV6_ADDR then 16 else s[1] as nat;
    Target(s[0], t[..n], Port(t[n..]))
  }

  lemma TypeReaches(auth: Option<Credentials>, c: Conn, s: seq<byte>, o: Outcome)
    requires Asked(auth, c) && c.state == DstAddrType
    ensures Reaches(auth, c, s, o) ==
      if Addressed(s) && o.connects && (s[0] == FQDN_ADDR ==> o.resolves) then Some(AddressedTo(s)) else None
  {
    if |s| >= 1 {
      var d := Step(auth, c, s[..1], o);
      if d.state == DstAddr { AddrReaches(auth, d, s[1..], o); }
      if d.state == DstAddrLen { LenReaches(auth, d, s[1..], o); }
    }
  }

  lemma RequestReaches(auth: Option<Credentials>, c: Conn, s: seq<byte>, o: Outcome)
    requires Asked(auth, c) && c.state == Request
    ensures Reaches(auth, c, s, o) == Grants(s, o)
  {
    if |s| >= 3 {
      var d := Step(auth, c, s[..3], o);
      if d.state == DstAddrType {
        TypeReaches(auth, d, s[3..], o);
        if RequestLen(s) > 0 { RequestedFrom(s); }
      }
    }
  }

  lemma RequestedFrom(s: seq<byte>)
    requires RequestLen(s) > 0
    ensures Addressed(s[3..]) && AddressedTo(s[3..]) == Requested(s)
  {
    var r, t := s[3..], s[4..];
    assert r[1..] == t && t[1..] == s[5..];
    assert forall n | n <= |t| && n >= 0 :: t[..n] == s[4..4 + n] && t[n..] == s[4 + n..];
  }

  lemma PasswordReaches(auth: Option<Credentials>, c: Conn, s: seq<byte>, o: Outcome)
    requires Asked(auth, c) && c.state == PasswordLen && auth.Some?
    ensures var p := auth.value.password;
      Reaches(auth, c, s, o) == if Named(s, p) then Grants(s[1 + |p|..], o) else None
  {
    hide Grants;
    var p := auth.value.password;
    if |s| >= 1 && s[0] != 0 {
      var n, d := s[0] as nat, Step(auth, c, s[..1], o);
      var t := s[1..];
      assert d == Go(c, Password, n);
      if |t| >= n {
        var e := Step(auth, d, t[..n], o);
        assert s[1..1 + n] == t[..n] && s[1 + n..] == t[n..];
        assert Reaches(auth, c, s, o) == Reaches(auth, d, t, o) == Reaches(auth, e, t[n..], o);
        if e.state == Request { RequestReaches(auth, e, t[n..], o); }
      }
    }
  }

  lemma UsernameReaches(auth: Option<Credentials>, c: Conn, s: seq<byte>, o: Outcome)
    requires Asked(auth, c) && c.state == UsernameLen && auth.Some?
    ensures Reaches(auth, c, s, o) ==
      if Authenticated(s, auth.value) && |s| >= AuthLen(auth.value) then Grants(s[AuthLen(auth.value)..], o) else None
  {
    hide Grants;
    var u, p := auth.value.username, auth.value.password;
    if |s| >= 2 && s[0] == SOCKS5_AUTH_VERSION && s[1] != 0 {
      var n, d := s[1] as nat, Step(auth, c, s[..2], o);
      var t := s[2..];
      assert d == Go(c, Username, n);
      if |t| >= n {
        var e := Step(auth, d, t[..n], o);
        assert s[2..2 + n] == t[..n] && s[2 + n..] == t[n..];
        assert Reaches(auth, c, s, o) == Reaches(auth, d, t, o) == Reaches(auth, e, t[n..], o);
        if e.state == PasswordLen {
          PasswordReaches(auth, e, t[n..], o);
          assert Named(t[n..], p) ==> s[2 + n..][1 + |p|..] == s[AuthLen(auth.value)..];
        }
      }
    }
  }

  /** The two steps of the greeting. */
  lemma GreetingReaches(auth: Option<Credentials>, s: seq<byte>, o: Outcome)
    ensures var c, g := if auth.Some? then Go(START, UsernameLen, 2) else Go(START, Request, 3), GreetingLen(s);
      Reaches(auth, START, s, o) == if g > 0 then Reaches(auth, c, s[g..], o) else None
  {
    if |s| >= 2 && s[0] == SOCKS5_VERSION && s[1] != 0 {
      var n, t := s[1] as nat, s[2..];
      var d := Go(START, AuthMethods, n);
      assert Step(auth, START, s[..2], o) == d;
      assert Reaches(auth, START, s, o) == Reaches(auth, d, t, o);
      if |t| >= n { assert s[2 + n..] == t[n..]; }
    }
  }

  /** What is served, after the greeting. */
  lemma ServedAfter(auth: Option<Credentials>, s: seq<byte>, o: Outcome)
    requires GreetingLen(s) > 0
    ensures var t := s[GreetingLen(s)..];
      Serves(auth, s, o) ==
        match auth
        case None => Grants(t, o)
        case Some(k) => if Authenticated(t, k) && |t| >= AuthLen(k) then Grants(t[AuthLen(k)..], o) else None
  {
    hide Authenticated, RequestLen, Requested;
    var g := GreetingLen(s);
    if auth.Some? && |s| >= g + AuthLen(auth.value) {
      assert s[g..][AuthLen(auth.value)..] == s[g + AuthLen(auth.value)..];
    } else {
      assert s[g + 0..] == s[g..];
    }
  }

  /** The server connects upstream exactly when the client has sent a whole handshake, the name in it, if any, is found and the
      connection comes about; with credentials configured, that is a handshake with exactly this username and this password. It
      connects to the address and the port of the request. */
  lemma ServerAcceptsHandshakes(auth: Option<Credentials>, s: seq<byte>, o: Outcome)
    ensures Reaches(auth, START, s, o) == Serves(auth, s, o)
  {
    GreetingReaches(auth, s, o);
    var g := GreetingLen(s);
    if g > 0 {
      ServedAfter(auth, s, o);
      if auth.Some? {
        UsernameReaches(auth, Go(START, UsernameLen, 2), s[g..], o);
      } else {
        RequestReaches(auth, Go(START, Request, 3), s[g..], o);
      }
      hide Serves, Grants, Authenticated, Reaches;
    }
  }

  /** The bytes the server may still ask for. */
  function Budget(c: Conn): nat {
    match c.state
    case AuthMethodsCount => MAX_HANDSHAKE
    case AuthMethods => c.need + 775
    case UsernameLen => 775
    case Username => c.need + 518
    case PasswordLen => 518
    case Password => c.need + 262
    case Request => 262
    case DstAddrType => 259
    case DstAddrLen => 258
    case DstAddr => c.need + 2
    case DstPort => 2
    case _ => 0
  }

  /** Every step spends what was asked for, so no client is kept waiting for ever: it is served or refused. */
  lemma StepSpends(auth: Option<Credentials>, c: Conn, bytes: seq<byte>, o: Outcome)
    requires Asked(auth, c) && |bytes| == c.need && c.state != Upstream && c.state != Closed
    ensures Budget(Step(auth, c, bytes, o)) + c.need <= Budget(c)
  {
  }

  // ------------------------------------------------------------ the callback

  class Server {
    const auth: Option<Credentials>
    var state: State
    var need: nat
    var addrType: byte
    var addr: seq<byte>
    var port: nat

    /** on_accept. */
    constructor (auth: Option<Credentials>)
      ensures this.auth == auth && Current() == START
    {
      this.auth := auth;
      state, need, addrType, addr, port := AuthMethodsCount, 2, 0, [], 0;
    }

    function Current(): Conn
      reads this
    {
      Conn(state, need, addrType, addr, port)
    }

    /** `hio_close`, and `hio_readbytes` in a new state. */
    method Close()
      modifies `state, `need
      ensures Current() == CloseConn(old(Current()))
    {
      state, need := Closed, 1;
    }

    method ReadBytes(next: State, n: nat)
      modifies `state, `need
      ensures Current() == Go(old(Current()), next, n)
    {
      state, need := next, n;
    }

    /** on_recv. Every handler gets the number of bytes it asserts. */
    method OnRecv(bytes: seq<byte>, o: Outcome)
      requires Asked(auth, Current()) && |bytes| == need
      modifies this
      ensures Asked(auth, Current()) && Current() == Step(auth, old(Current()), bytes, o)
    {
      match state {
        case AuthMethodsCount =>
          assert |bytes| == 2;
          if bytes[0] != SOCKS5_VERSION || bytes[1] == 0 {
            Close();
            return;
          }
          ReadBytes(AuthMethods, bytes[1] as nat);
        case AuthMethods =>
          if auth.None? {
            ReadBytes(Request, 3);
          } else {
            ReadBytes(UsernameLen, 2);
          }
        case UsernameLen =>
          assert |bytes| == 2;
          if bytes[0] != SOCKS5_AUTH_VERSION || bytes[1] == 0 {
            Close();
            return;
          }
          ReadBytes(Username, bytes[1] as nat);
        case Username =>
          if |bytes| != |auth.value.username| || bytes != auth.value.username {
            Close();
            return;
          }
          ReadBytes(PasswordLen, 1);
        case PasswordLen =>
          assert |bytes| == 1;
          if bytes[0] == 0 {
            Close();
            return;
          }
          ReadBytes(Password, bytes[0] as nat);
        case Password =>
          if |bytes| != |auth.value.password| || bytes != auth.value.password {
            Close();
            return;
          }
          ReadBytes(Request, 3);
        case Request =>
          assert |bytes| == 3;
          if bytes[0] != SOCKS5_VERSION || bytes[1] != CONNECT_COMMAND {
            Close();
            return;
          }
          ReadBytes(DstAddrType, 1);
        case DstAddrType =>
          assert |bytes| == 1;
          addrType := bytes[0];
          if addrType == IPV4_ADDR {
            ReadBytes(DstAddr, 4);
          } else if addrType == FQDN_ADDR {
            ReadBytes(DstAddrLen, 1);
          } else if addrType == IPV6_ADDR {
            ReadBytes(DstAddr, 16);
          } else {
            Close();
          }
        case DstAddrLen =>
          if bytes[0] == 0 {
            Close();
            return;
          }
          ReadBytes(DstAddr, bytes[0] as nat);
        case DstAddr =>
          if addrType == IPV4_ADDR {
            assert |bytes| == 4;
          } else if addrType == IPV6_ADDR {
            assert |bytes| == 16;
          } else if !o.resolves {
            Close();
            return;
          }
          addr := bytes;
          ReadBytes(DstPort, 2);
        case DstPort =>
          assert |bytes| == 2;
          port := bytes[0] as nat * 256 + bytes[1] as nat;
          if !o.connects {
            Close();
            return;
          }
          state, need := Upstream, 1;
        case Upstream =>
        case Closed =>
      }
    }

    /** The server waits for `need` bytes; `used` bytes of the stream have gone to on_recv and those up to `read` are kept. */
    ghost predicate Waiting(io: ReadBuf.ReadIo, stream: seq<byte>, used: nat, read: nat)
      reads this, io, io.base
    {
      && used <= read <= |stream| && io.Valid() && io.mode == ReadBuf.UntilLength(need) && io.Kept() == stream[used..read]
      && io.base.Length <= ReadBuf.READ_BUFSIZE_HIGH_WATER && io.maxReadBufsize == MAX_READ_BUFSIZE
    }

    /** The read callback: on_recv, which asks for the bytes of the next state unless there is none. */
    method Callback(io: ReadBuf.ReadIo, bytes: seq<byte>, o: Outcome)
      requires Asked(auth, Current()) && |bytes| == need && io.Valid() && io.mode == ReadBuf.Idle && io.head == io.tail == 0
      requires io.base.Length <= ReadBuf.READ_BUFSIZE_HIGH_WATER && io.maxReadBufsize == MAX_READ_BUFSIZE
      modifies this, io, io.base
      ensures io.base == old(io.base) || fresh(io.base)
      ensures Asked(auth, Current()) && Current() == Step(auth, old(Current()), bytes, o)
      ensures state != Closed && state != Upstream ==> io.Valid() && io.mode == ReadBuf.UntilLength(need) && io.head == io.tail == 0
      ensures io.base.Length <= ReadBuf.READ_BUFSIZE_HIGH_WATER && io.maxReadBufsize == MAX_READ_BUFSIZE
    {
      hide Step, Asked;
      Bounded(auth, Current());
      OnRecv(bytes, o);
      Bounded(auth, Current());
      if state != Closed && state != Upstream {
        var none := io.ReadUntilLength(need);
        io.CountSmall(|bytes|);
      }
    }

    /** One read of any size. With the last of the bytes that the state has asked for, and no others, the callback is called. */
    method Receive(io: ReadBuf.ReadIo, stream: seq<byte>, o: Outcome, ghost used0: nat, read0: nat)
      returns (ghost used: nat, read: nat, got: Option<seq<byte>>)
      requires Asked(auth, Current()) && state != Upstream && state != Closed && Waiting(io, stream, used0, read0) && read0 < |stream|
      modifies this, io, io.base
      ensures io.base == old(io.base) || fresh(io.base)
      ensures Asked(auth, Current()) && read0 < read && used0 <= used <= |stream|
      ensures state != Upstream && state != Closed ==> Waiting(io, stream, used, read)
      ensures got == None ==> used == used0 && Current() == old(Current())
      ensures got.Some? ==> used == used0 + old(need) && got.value == stream[used0..used] && Current() == Step(auth, old(Current()), got.value, o)
    {
      hide Step, Asked, ReadBuf.ReadIo.Valid, ReadBuf.ReadIo.Shrinks;
      io.Waited();
      Bounded(auth, Current());
      var n: nat :| 0 < n <= |stream| - read0 && n <= need - (io.tail - io.head);
      read := read0 + n;
      ghost var c := Current();
      got := io.NioReadUntil(stream[read0..read]);
      assert stream[used0..read0] + stream[read0..read] == stream[used0..read];
      if got == None {
        io.AfterRead();
        assert Current() == c;
        return used0, read, None;
      }
      used := used0 + need;
      assert got.value == stream[used0..used];
      Callback(io, got.value, o);
      ghost var d := Current();
      if state != Upstream && state != Closed {
        io.AfterRead();
        assert Current() == d;
      }
    }

    /** A whole run over what a client sends, in reads of any sizes: the upstream is reached exactly if it has sent a whole
        handshake and all goes well that the request needs, and it is the one that the request names. A client that has sent as
        many bytes as the longest handshake has is connected or closed. */
    method Run(stream: seq<byte>, o: Outcome)
      requires Current() == START
      modifies this
      ensures state == Upstream <==> Served(auth, stream, o)
      ensures state == Upstream ==> Target(addrType, addr, port) == Requested(stream[RequestAt(auth, stream)..])
      ensures |stream| >= MAX_HANDSHAKE ==> state == Upstream || state == Closed
    {
      ServesWhen(auth, stream, o);
      hide Step, Served, Serves, Budget, Requested, RequestAt;
      StartBudget();
      ServerAcceptsHandshakes(auth, stream, o);
      ghost var used: nat := 0;
      var read := 0;
      assert stream[0..] == stream && stream[0..0] == [];
      var io := new ReadBuf.ReadIo(MAX_READ_BUFSIZE);
      var none := io.ReadUntilLength(need);
      hide Asked, Reaches;
      while state != Upstream && state != Closed && read < |stream|
        invariant fresh(io) && fresh(io.base) && Asked(auth, Current()) && used <= |stream|
        invariant state != Upstream && state != Closed ==> Waiting(io, stream, used, read)
        invariant Reaches(auth, Current(), stream[used..], o) == Serves(auth, stream, o)
        invariant Budget(Current()) + used <= MAX_HANDSHAKE
        decreases |stream| - read
      {
        ghost var c, at := Current(), used;
        var got;
        used, read, got := Receive(io, stream, o, used, read);
        if got.Some? {
          OnceMore(auth, c, stream, at, o);
          StepSpends(auth, c, got.value, o);
        }
      }
      if state != Upstream && state != Closed {
        io.Waited();
        NeedWithin(auth, Current());
        assert |stream[used..]| < need;
      }
    }
  }

  lemma ServesWhen(auth: Option<Credentials>, s: seq<byte>, o: Outcome)
    ensures Served(auth, s, o) <==> Serves(auth, s, o).Some?
    ensures Served(auth, s, o) ==> Serves(auth, s, o) == Some(Requested(s[RequestAt(auth, s)..]))
  {
  }

  lemma StartBudget()
    ensures Budget(START) == MAX_HANDSHAKE
  {
  }

  lemma NeedWithin(auth: Option<Credentials>, c: Conn)
    requires Asked(auth, c) && c.state != Upstream && c.state != Closed
    ensures c.need <= Budget(c)
  {
  }

  lemma Bounded(auth: Option<Credentials>, c: Conn)
    requires Asked(auth, c)
    ensures 0 < c.need < 256
  {
  }

  /** The bytes of one state are a step on the way. */
  lemma OnceMore(auth: Option<Credentials>, c: Conn, stream: seq<byte>, used: nat, o: Outcome)
    requires Asked(auth, c) && c.state != Upstream && c.state != Closed && used + c.need <= |stream|
    ensures Reaches(auth, c, stream[used..], o)
         == Reaches(auth, Step(auth, c, stream[used..used + c.need], o), stream[used + c.need..], o)
  {
    var s := stream[used..];
    assert s[..c.need] == stream[used..used + c.need] && s[c.need..] == stream[used + c.need..];
    hide Step, Asked;
  }
}

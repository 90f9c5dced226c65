/** The HTTP CONNECT front end (section 9.3.6 of RFC 9110): an incremental header reader and the parsing of
    its request line. UTF-8 decoding and IP address text are arbitrary functions. */
module HttpConnect {
  import opened Bytes
  import opened Decimal
  import opened Targets

  const MAX_CONNECT_HEADER_BYTES: nat := 8192
  const READ_SIZE: nat := 1024

  type Target = TargetAddr<string>

  // ----- finding the end of the header -----

  predicate TerminatorAt(s: seq<byte>, i: int)
  {
    0 <= i && i + 4 <= |s| && s[i] == 13 && s[i + 1] == 10 && s[i + 2] == 13 && s[i + 3] == 10
  }

  /** The first position of a blank line. */
  function Find(s: seq<byte>, from: nat := 0): (r: Option<nat>)
    ensures r.Some? ==> from <= r.value && TerminatorAt(s, r.value)
    ensures r.Some? ==> forall i :: from <= i < r.value ==> !TerminatorAt(s, i)
    ensures r.None? ==> forall i :: from <= i ==> !TerminatorAt(s, i)
    decreases |s| - from
  {
    if from + 4 > |s| then None
    else if TerminatorAt(s, from) then Some(from)
    else Find(s, from + 1)
  }

  /** A prefix has the same first terminator once it is long enough, and none before that. */
  lemma FindInPrefix(s: seq<byte>, p: nat, n: nat)
    requires Find(s) == Some(p) && n <= |s|
    ensures Find(s[..n]) == if n >= p + 4 then Some(p) else None
  {
    var t := s[..n];
    assert forall i :: TerminatorAt(t, i) ==> TerminatorAt(s, i);
    if n >= p + 4 {
      assert TerminatorAt(t, p);
    }
  }

  // ----- the read loop -----

  datatype Gathered = Header(data: seq<byte>, unread: seq<seq<byte>>) | Disconnected | TooLarge

  /** Chunks arrive one by one; an empty read, or no more chunks, is a disconnect. */
  function Gather(data: seq<byte>, chunks: seq<seq<byte>>): (g: Gathered)
    decreases |chunks|
  {
    if chunks == [] || chunks[0] == [] then Disconnected
    else
      var data := data + chunks[0];
      if Find(data).Some? then Header(data, chunks[1..])
      else if |data| > MAX_CONNECT_HEADER_BYTES then TooLarge
      else Gather(data, chunks[1..])
  }

  /** What the read buffer can deliver: at least one byte, at most its size. */
  predicate ReadChunks(chunks: seq<seq<byte>>)
  {
    forall i :: 0 <= i < |chunks| ==> 0 < |chunks[i]| <= READ_SIZE
  }

  lemma {:induction false} GatherHeader(data: seq<byte>, chunks: seq<seq<byte>>, p: nat)
    requires ReadChunks(chunks) && |data| <= MAX_CONNECT_HEADER_BYTES && |data| < p + 4
    requires Find(data + Concat(chunks)) == Some(p)
    ensures match Gather(data, chunks)
            case Header(d, unread) =>
              && d + Concat(unread) == data + Concat(chunks)
              && Find(d) == Some(p)
              && |d| <= MAX_CONNECT_HEADER_BYTES + READ_SIZE
            case TooLarge => p + 4 > MAX_CONNECT_HEADER_BYTES + 1
            case Disconnected => false
    decreases |chunks|
  {
    var all := data + Concat(chunks);
    assert data + [] == data;
    assert chunks != [];
    var next := data + chunks[0];
    assert next + Concat(chunks[1..]) == all;
    assert all[..|next|] == next;
    FindInPrefix(all, p, |next|);
    if Find(next).None? && |next| <= MAX_CONNECT_HEADER_BYTES {
      GatherHeader(next, chunks[1..], p);
    }
  }

  /** How long the buffer gets: it only grows, so its length where reading stops. */
  function Buffered(data: seq<byte>, chunks: seq<seq<byte>>): (n: nat)
    decreases |chunks|
  {
    if chunks == [] || chunks[0] == [] then |data|
    else
      var data := data + chunks[0];
      if Find(data).Some? || |data| > MAX_CONNECT_HEADER_BYTES then |data| else Buffered(data, chunks[1..])
  }

  /** Whatever arrives, header or not, the buffer never holds more than 8192 + 1024 bytes. */
  lemma {:induction false} BufferIsBounded(data: seq<byte>, chunks: seq<seq<byte>>)
    requires ReadChunks(chunks) && |data| <= MAX_CONNECT_HEADER_BYTES
    ensures Buffered(data, chunks) <= MAX_CONNECT_HEADER_BYTES + READ_SIZE
    decreases |chunks|
  {
    if chunks != [] && Find(data + chunks[0]).None? && |data + chunks[0]| <= MAX_CONNECT_HEADER_BYTES {
      BufferIsBounded(data + chunks[0], chunks[1..]);
    }
  }

  lemma Cuts(front: seq<byte>, back: seq<byte>, all: seq<byte>, p: nat)
    requires front + back == all && p + 4 <= |front|
    ensures front[..p] == all[..p] && front[p + 4..] + back == all[p + 4..]
  {
  }

  /** For every way the network cuts the stream, a header that ends within 8193 bytes is read, nothing after
      it is lost, and the buffer never holds more than 8192 + 1024 bytes. */
  lemma GatherAnyChunking(chunks: seq<seq<byte>>, p: nat)
    requires ReadChunks(chunks) && Find(Concat(chunks)) == Some(p) && p + 4 <= MAX_CONNECT_HEADER_BYTES + 1
    ensures var g := Gather([], chunks);
            && g.Header?
            && Find(g.data) == Some(p)
            && g.data[..p] == Concat(chunks)[..p]
            && g.data[p + 4..] + Concat(g.unread) == Concat(chunks)[p + 4..]
            && |g.data| <= MAX_CONNECT_HEADER_BYTES + READ_SIZE
  {
    hide Gather, Find, ReadChunks, Concat;
    assert [] + Concat(chunks) == Concat(chunks);
    GatherHeader([], chunks, p);
    var g := Gather([], chunks);
    Cuts(g.data, Concat(g.unread), Concat(chunks), p);
  }

  function Bytewise(s: seq<byte>): (chunks: seq<seq<byte>>)
  {
    if s == [] then [] else [[s[0]]] + Bytewise(s[1..])
  }

  lemma {:induction false} BytewiseConcat(s: seq<byte>)
    ensures Concat(Bytewise(s)) == s && ReadChunks(Bytewise(s))
  {
    if s != [] {
      BytewiseConcat(s[1..]);
      assert Bytewise(s)[1..] == Bytewise(s[1..]);
      assert [s[0]] + s[1..] == s;
    }
  }

  lemma {:induction false} GatherBytewise(data: seq<byte>, s: seq<byte>, p: nat)
    requires Find(data + s) == Some(p) && p + 4 > MAX_CONNECT_HEADER_BYTES + 1
    requires |data| <= MAX_CONNECT_HEADER_BYTES
    ensures Gather(data, Bytewise(s)) == TooLarge
    decreases |s|
  {
    assert data + [] == data;
    assert s != [];
    var next := data + [s[0]];
    assert next + s[1..] == data + s;
    assert (data + s)[..|next|] == next;
    FindInPrefix(data + s, p, |next|);
    assert Bytewise(s)[1..] == Bytewise(s[1..]);
    if |next| <= MAX_CONNECT_HEADER_BYTES {
      GatherBytewise(next, s[1..], p);
    }
  }

  /** The exact limit: a stream with a header is read however it is cut if and only if the header, with its
      blank line, ends within 8193 bytes. */
  lemma ChunkingNeverMattersIff(s: seq<byte>, p: nat)
    requires Find(s) == Some(p)
    ensures (forall chunks | ReadChunks(chunks) && Concat(chunks) == s :: Gather([], chunks).Header?)
            <==> p + 4 <= MAX_CONNECT_HEADER_BYTES + 1
  {
    if p + 4 <= MAX_CONNECT_HEADER_BYTES + 1 {
      forall chunks | ReadChunks(chunks) && Concat(chunks) == s
        ensures Gather([], chunks).Header?
      {
        GatherAnyChunking(chunks, p);
      }
    } else {
      BytewiseConcat(s);
      assert [] + s == s;
      GatherBytewise([], s, p);
    }
  }

  // ----- the request line -----

  /** Unicode White_Space. */
  predicate IsSpace(c: char)
  {
    var n := c as int;
    9 <= n <= 13 || n == 0x20 || n == 0x85 || n == 0xA0 || n == 0x1680 || 0x2000 <= n <= 0x200A
    || n == 0x2028 || n == 0x2029 || n == 0x202F || n == 0x205F || n == 0x3000
  }

  predicate Solid(s: string)
  {
    forall i :: 0 <= i < |s| ==> !IsSpace(s[i])
  }

  function Index(s: string, c: char): (i: nat)
    ensures i <= |s| && c !in s[..i] && (i < |s| ==> s[i] == c)
  {
    if s == "" then 0
    else if s[0] == c then 0
    else
      var i := Index(s[1..], c) + 1;
      assert s[..i] == [s[0]] + s[1..][..i - 1];
      i
  }

  function FirstLine(text: string): (r: Option<string>)
  {
    if text == "" then None
    else
      var i := Index(text, '\n');
      if i == |text| then Some(text)
      else if i > 0 && text[i - 1] == '\r' then Some(text[..i - 1])
      else Some(text[..i])
  }

  function SkipSpace(s: string): (r: string)
    ensures r == "" || !IsSpace(r[0])
  {
    if s != "" && IsSpace(s[0]) then SkipSpace(s[1..]) else s
  }

  function WordLength(s: string): (n: nat)
    ensures n <= |s| && Solid(s[..n]) && (n < |s| ==> IsSpace(s[n]))
  {
    if s == "" || IsSpace(s[0]) then 0
    else
      var n := WordLength(s[1..]) + 1;
      assert s[..n] == [s[0]] + s[1..][..n - 1];
      n
  }

  /** The next whitespace-separated word and what follows it. */
  function NextWord(s: string): (r: Option<(string, string)>)
    ensures r.Some? ==> r.value.0 != "" && Solid(r.value.0)
  {
    var t := SkipSpace(s);
    if t == "" then None
    else
      var n := WordLength(t);
      Some((t[..n], t[n..]))
  }

  /** Reading and printing IP addresses, as the standard library does them. */
  datatype IpText = IpText(
    show4: seq<byte> -> string, parse4: string -> Option<seq<byte>>,
    show6: seq<byte> -> string, parse6: string -> Option<seq<byte>>)

  /** Printing and reading are inverse, an IPv4 text does not start with a bracket and an IPv6 text has none. */
  ghost predicate Lawful(ip: IpText)
  {
    && (forall o :: |o| == 4 ==> ip.parse4(ip.show4(o)) == Some(o) && (ip.show4(o) == "" || ip.show4(o)[0] != '['))
    && (forall o :: |o| == 16 ==> ip.parse6(ip.show6(o)) == Some(o) && ']' !in ip.show6(o))
  }

  function ToAuthority(t: Target, port: u16, ip: IpText): (s: string)
  {
    match t
    case Domain(host) => host + ":" + Show(port)
    case Ipv4(o) => ip.show4(o) + ":" + Show(port)
    case Ipv6(o) => "[" + ip.show6(o) + "]:" + Show(port)
  }

  /** The position of the first "]:" at or after a position. */
  function BracketColon(s: string, from: nat): (r: Option<nat>)
    ensures r.Some? ==> from <= r.value && r.value + 2 <= |s|
    decreases |s| - from
  {
    if from + 2 > |s| then None
    else if s[from] == ']' && s[from + 1] == ':' then Some(from)
    else BracketColon(s, from + 1)
  }

  /** The position of the last colon. */
  function LastColon(s: string): (r: Option<nat>)
    ensures r.Some? ==> r.value < |s|
  {
    if s == "" then None
    else if s[|s| - 1] == ':' then Some(|s| - 1)
    else LastColon(s[..|s| - 1])
  }

  function ParseAuthority(a: string, ip: IpText): (r: Parsed<(Target, u16)>)
  {
    if a != "" && a[0] == '[' then
      var rest := a[1..];
      match BracketColon(rest, 0)
      case None => Malformed("invalid IPv6 CONNECT authority")
      case Some(i) =>
        match ip.parse6(rest[..i])
        case None => Malformed("invalid IPv6 address")
        case Some(o) =>
          match ParsePort(rest[i + 2..])
          case None => Malformed("invalid CONNECT port")
          case Some(port) => Ok((Ipv6(o), port))
    else
      match LastColon(a)
      case None => Malformed("CONNECT authority must include port")
      case Some(i) =>
        var host := a[..i];
        match ParsePort(a[i + 1..])
        case None => Malformed("invalid CONNECT port")
        case Some(port) =>
          if ip.parse4(host).Some? then Ok((Ipv4(ip.parse4(host).value), port))
          else if ip.parse6(host).Some? then Ok((Ipv6(ip.parse6(host).value), port))
          else Ok((Domain(host), port))
  }

  lemma {:induction false} LastColonBeforeDigits(host: string, digits: string)
    requires ':' !in digits
    ensures LastColon(host + ":" + digits) == Some(|host|)
    decreases |digits|
  {
    var s := host + ":" + digits;
    if digits == "" {
      assert s[|s| - 1] == ':';
    } else {
      var front := digits[..|digits| - 1];
      assert s[..|s| - 1] == host + ":" + front;
      assert s[|s| - 1] == digits[|digits| - 1];
      LastColonBeforeDigits(host, front);
    }
  }

  lemma {:induction false} BracketColonAfter(s: string, i: nat, from: nat)
    requires from <= i && i + 2 <= |s| && s[i] == ']' && s[i + 1] == ':'
    requires forall k :: from <= k < i ==> s[k] != ']' || s[k + 1] != ':'
    ensures BracketColon(s, from) == Some(i)
    decreases i - from
  {
    if from < i {
      BracketColonAfter(s, i, from + 1);
    }
  }

  lemma ShowHasNoColon(n: nat)
    ensures ':' !in Show(n)
  {
    assert !IsDigit(':');
  }

  /** No "]:" inside. */
  predicate Closed(host: string)
  {
    forall k :: 0 <= k < |host| - 1 ==> host[k] != ']' || host[k + 1] != ':'
  }

  predicate Bracketed(a: string)
  {
    a != "" && a[0] == '['
  }

  /** How an authority falls into host and port text: at the first "]:" after an opening bracket, else at the last
      colon. */
  predicate HostAndPort(a: string, host: string, digits: string)
  {
    if Bracketed(a) then a == "[" + host + "]:" + digits && Closed(host)
    else a == host + ":" + digits && ':' !in digits
  }

  /** The target a host names: between brackets only an IPv6 address, otherwise an address if it reads as one. */
  predicate NamesTarget(bracketed: bool, host: string, t: Target, ip: IpText)
  {
    if bracketed then ip.parse6(host).Some? && t == Ipv6(ip.parse6(host).value)
    else
      t == match ip.parse4(host)
           case Some(o) => Ipv4(o)
           case None => if ip.parse6(host).Some? then Ipv6(ip.parse6(host).value) else Domain(host)
  }

  lemma PlainParses(a: string, host: string, digits: string, ip: IpText)
    requires !Bracketed(a) && HostAndPort(a, host, digits)
    ensures match ParsePort(digits)
            case None => ParseAuthority(a, ip).Malformed?
            case Some(port) =>
              ParseAuthority(a, ip).Ok? && ParseAuthority(a, ip).value.1 == port
              && NamesTarget(false, host, ParseAuthority(a, ip).value.0, ip)
  {
    LastColonBeforeDigits(host, digits);
    assert a[..|host|] == host && a[|host| + 1..] == digits;
    hide ParsePort, LastColon;
  }

  lemma BracketedParses(a: string, host: string, digits: string, ip: IpText)
    requires Bracketed(a) && HostAndPort(a, host, digits)
    ensures ParseAuthority(a, ip) ==
            if ip.parse6(host).None? then Malformed("invalid IPv6 address")
            else if ParsePort(digits).None? then Malformed("invalid CONNECT port")
            else Ok((Ipv6(ip.parse6(host).value), ParsePort(digits).value))
  {
    var rest := a[1..];
    assert rest == host + "]:" + digits;
    BracketColonAfter(rest, |host|, 0);
    assert rest[..|host|] == host && rest[|host| + 2..] == digits;
    hide ParsePort, BracketColon;
  }

  lemma {:induction false} LastColonCuts(a: string)
    ensures LastColon(a).None? ==> ':' !in a
    ensures LastColon(a).Some? ==> a[LastColon(a).value] == ':' && ':' !in a[LastColon(a).value + 1..]
  {
    if a != "" && a[|a| - 1] != ':' {
      var front := a[..|a| - 1];
      LastColonCuts(front);
      assert a == front + [a[|a| - 1]];
      if LastColon(front).Some? {
        var i := LastColon(front).value;
        assert a[i + 1..] == front[i + 1..] + [a[|a| - 1]];
      }
    }
  }

  lemma {:induction false} BracketColonCuts(s: string, from: nat)
    ensures match BracketColon(s, from)
            case None => forall k :: from <= k < |s| - 1 ==> s[k] != ']' || s[k + 1] != ':'
            case Some(i) =>
              && s[i] == ']' && s[i + 1] == ':'
              && forall k :: from <= k < i ==> s[k] != ']' || s[k + 1] != ':'
    decreases |s| - from
  {
    if from + 2 <= |s| && !(s[from] == ']' && s[from + 1] == ':') {
      BracketColonCuts(s, from + 1);
    }
  }

  lemma BracketedFallsApart(a: string)
    requires Bracketed(a) && BracketColon(a[1..], 0).Some?
    ensures var rest := a[1..];
            var i := BracketColon(rest, 0).value;
            HostAndPort(a, rest[..i], rest[i + 2..])
  {
    var rest := a[1..];
    BracketColonCuts(rest, 0);
    hide BracketColon;
    var i := BracketColon(rest, 0).value;
    assert rest == rest[..i] + "]:" + rest[i + 2..];
    assert a == "[" + rest;
  }

  lemma PlainFallsApart(a: string)
    requires !Bracketed(a) && LastColon(a).Some?
    ensures var i := LastColon(a).value; HostAndPort(a, a[..i], a[i + 1..])
  {
    LastColonCuts(a);
    hide LastColon;
  }

  lemma AuthorityFallsApart(a: string, ip: IpText)
    requires ParseAuthority(a, ip).Ok?
    ensures exists host, digits :: HostAndPort(a, host, digits)
  {
    hide HostAndPort, BracketColon, LastColon, ParsePort;
    if Bracketed(a) {
      BracketedFallsApart(a);
    } else {
      PlainFallsApart(a);
    }
  }

  /** An authority is read as a target and a port if and only if it falls into a host that names the target and text
      that reads as the port. */
  lemma AuthorityExact(a: string, t: Target, port: u16, ip: IpText)
    ensures ParseAuthority(a, ip) == Ok((t, port)) <==>
            exists host, digits ::
              HostAndPort(a, host, digits) && ParsePort(digits) == Some(port) && NamesTarget(Bracketed(a), host, t, ip)
  {
    forall host, digits | HostAndPort(a, host, digits)
      ensures ParseAuthority(a, ip) == Ok((t, port)) <==>
              ParsePort(digits) == Some(port) && NamesTarget(Bracketed(a), host, t, ip)
    {
      hide ParseAuthority, ParsePort, HostAndPort;
      if Bracketed(a) {
        BracketedParses(a, host, digits, ip);
      } else {
        PlainParses(a, host, digits, ip);
      }
    }
    if ParseAuthority(a, ip) == Ok((t, port)) {
      hide ParseAuthority, ParsePort, HostAndPort, NamesTarget;
      AuthorityFallsApart(a, ip);
    }
  }

  lemma PlainAuthority(host: string, port: u16, ip: IpText)
    requires !Bracketed(host)
    ensures var r := ParseAuthority(host + ":" + Show(port), ip);
            r.Ok? && r.value.1 == port && NamesTarget(false, host, r.value.0, ip)
  {
    ShowHasNoColon(port);
    ParseShow(port);
    PlainParses(host + ":" + Show(port), host, Show(port), ip);
    hide ParsePort, ParseAuthority, Show;
  }

  lemma BracketAuthority(o: seq<byte>, port: u16, ip: IpText)
    requires Lawful(ip) && |o| == 16
    ensures ParseAuthority("[" + ip.show6(o) + "]:" + Show(port), ip) == Ok((Ipv6(o), port))
  {
    hide ParseAuthority, ParsePort, Show;
    var host := ip.show6(o);
    var a := "[" + host + "]:" + Show(port);
    ParseShow(port);
    BracketedParses(a, host, Show(port), ip);
  }

  lemma BracketedIsIpv6(a: string, ip: IpText)
    requires Bracketed(a) && ParseAuthority(a, ip).Ok?
    ensures ParseAuthority(a, ip).value.0.Ipv6?
  {
    hide BracketColon, ParsePort;
  }

  /** Reading an authority undoes writing it: always for IP targets, and for a domain exactly when its name
      does not start with a bracket and cannot be read as an IP address. */
  lemma AuthorityRoundTrip(t: Target, port: u16, ip: IpText)
    requires Lawful(ip) && (t.Ipv4? ==> |t.octets| == 4) && (t.Ipv6? ==> |t.octets| == 16)
    ensures ParseAuthority(ToAuthority(t, port, ip), ip) == Ok((t, port)) <==>
            (t.Domain? ==> !Bracketed(t.host) && ip.parse4(t.host) == None && ip.parse6(t.host) == None)
  {
    hide ParseAuthority, Show;
    match t
    case Ipv6(o) => BracketAuthority(o, port, ip);
    case Ipv4(o) =>
      assert ip.parse4(ip.show4(o)) == Some(o);
      PlainAuthority(ip.show4(o), port, ip);
    case Domain(host) =>
      if !Bracketed(host) {
        PlainAuthority(host, port, ip);
      } else if ParseAuthority(ToAuthority(t, port, ip), ip).Ok? {
        BracketedIsIpv6(ToAuthority(t, port, ip), ip);
      }
  }

  function StartsWith(s: string, prefix: string): (r: bool)
  {
    prefix <= s
  }

  function ParseHeader(text: string, ip: IpText): (r: Parsed<(Target, u16)>)
  {
    match FirstLine(text)
    case None => Malformed("missing request line")
    case Some(line) =>
      match NextWord(line)
      case None => Malformed("missing method")
      case Some((word, rest)) =>
        match NextWord(rest)
        case None => Malformed("missing authority")
        case Some((authority, rest)) =>
          match NextWord(rest)
          case None => Malformed("missing HTTP version")
          case Some((version, _)) =>
            if word != "CONNECT" || !StartsWith(version, "HTTP/") then Malformed("not an HTTP CONNECT request")
            else ParseAuthority(authority, ip)
  }

  type Decoder = seq<byte> -> Option<string>

  datatype Request = Request(target: Target, port: u16, early: seq<byte>)

  function ParseConnect(data: seq<byte>, utf8: Decoder, ip: IpText): (r: Parsed<Request>)
  {
    match Find(data)
    case None => Malformed("CONNECT header terminator missing")
    case Some(p) =>
      match utf8(data[..p])
      case None => Malformed("CONNECT headers are not utf-8")
      case Some(text) =>
        match ParseHeader(text, ip)
        case Malformed(why) => Malformed(why)
        case Ok((target, port)) => Ok(Request(target, port, data[p + 4..]))
  }

  function ReadConnect(chunks: seq<seq<byte>>, utf8: Decoder, ip: IpText): (r: Parsed<Request>)
  {
    match Gather([], chunks)
    case Disconnected => Malformed("client disconnected before CONNECT headers")
    case TooLarge => Malformed("CONNECT headers too large")
    case Header(data, _) => ParseConnect(data, utf8, ip)
  }

  /** Two ways of cutting the same stream give the same target and port, or the same refusal, and in each the
      early data followed by what is still unread is the stream after the blank line. */
  lemma ReadConnectAnyChunking(a: seq<seq<byte>>, b: seq<seq<byte>>, p: nat, utf8: Decoder, ip: IpText)
    requires ReadChunks(a) && ReadChunks(b) && Concat(a) == Concat(b)
    requires Find(Concat(a)) == Some(p) && p + 4 <= MAX_CONNECT_HEADER_BYTES + 1
    ensures match (ReadConnect(a, utf8, ip), ReadConnect(b, utf8, ip))
            case (Ok(x), Ok(y)) =>
              && x.target == y.target && x.port == y.port
              && x.early + Concat(Gather([], a).unread) == Concat(a)[p + 4..]
              && y.early + Concat(Gather([], b).unread) == Concat(a)[p + 4..]
            case (x, y) => x == y
  {
    GatherAnyChunking(a, p);
    GatherAnyChunking(b, p);
    hide Gather, Find, ParseHeader;
  }

  // ----- what a well-formed request line means -----

  lemma {:induction false} WordLengthOf(word: string, rest: string)
    requires Solid(word) && (rest == "" || IsSpace(rest[0]))
    ensures WordLength(word + rest) == |word|
  {
    if word == "" {
      assert word + rest == rest;
    } else {
      assert (word + rest)[1..] == word[1..] + rest;
      WordLengthOf(word[1..], rest);
    }
  }

  lemma NextWordOf(word: string, rest: string)
    requires word != "" && Solid(word) && (rest == "" || IsSpace(rest[0]))
    ensures NextWord(word + rest) == Some((word, rest))
    ensures NextWord(" " + word + rest) == Some((word, rest))
  {
    var s := word + rest;
    assert SkipSpace(s) == s;
    assert (" " + word + rest)[1..] == s;
    assert SkipSpace(" " + word + rest) == SkipSpace(s);
    WordLengthOf(word, rest);
    assert s[..|word|] == word && s[|word|..] == rest;
    hide SkipSpace, WordLength;
  }

  /** A header whose first line splits into these three words. */
  lemma HeaderOf(
    text: string, line: string, verb: string, rest: string, authority: string, more: string, version: string,
    ip: IpText)
    requires FirstLine(text) == Some(line) && NextWord(line) == Some((verb, rest))
    requires NextWord(rest) == Some((authority, more)) && NextWord(more) == Some((version, ""))
    requires verb == "CONNECT" && StartsWith(version, "HTTP/")
    ensures ParseHeader(text, ip) == ParseAuthority(authority, ip)
  {
    hide NextWord, FirstLine, ParseAuthority, StartsWith;
  }

  lemma LineHasNoBreak(authority: string, line: string)
    requires Solid(authority) && line == "CONNECT " + authority + " HTTP/1.1"
    ensures '\n' !in line && line != ""
  {
  }

  /** `CONNECT <authority> HTTP/1.1` asks for exactly the target its authority names, whatever header fields
      follow. */
  lemma RequestLineMeaning(authority: string, fields: string, ip: IpText)
    requires authority != "" && Solid(authority)
    requires fields == "" || (|fields| >= 2 && fields[..2] == "\r\n")
    ensures ParseHeader("CONNECT " + authority + " HTTP/1.1" + fields, ip) == ParseAuthority(authority, ip)
  {
    assert StartsWith("HTTP/1.1", "HTTP/");
    hide NextWord, FirstLine, ParseAuthority, ParseHeader, StartsWith, Solid;
    var line := "CONNECT " + authority + " HTTP/1.1";
    LineHasNoBreak(authority, line);
    FirstLineOf(line, fields);
    RequestWords(authority);
    HeaderOf(line + fields, line, "CONNECT", " " + authority + " HTTP/1.1", authority, " HTTP/1.1", "HTTP/1.1", ip);
  }

  lemma RequestWords(authority: string)
    requires authority != "" && Solid(authority)
    ensures NextWord("CONNECT " + authority + " HTTP/1.1") == Some(("CONNECT", " " + authority + " HTTP/1.1"))
    ensures NextWord(" " + authority + " HTTP/1.1") == Some((authority, " HTTP/1.1"))
    ensures NextWord(" HTTP/1.1") == Some(("HTTP/1.1", ""))
  {
    hide NextWord;
    NextWordOf("CONNECT", " " + authority + " HTTP/1.1");
    assert "CONNECT " + authority + " HTTP/1.1" == "CONNECT" + (" " + authority + " HTTP/1.1");
    NextWordOf(authority, " HTTP/1.1");
    NextWordOf("HTTP/1.1", "");
    assert " HTTP/1.1" == " " + "HTTP/1.1" + "";
  }

  lemma FirstLineOf(line: string, fields: string)
    requires line != "" && '\n' !in line
    requires fields == "" || (|fields| >= 2 && fields[..2] == "\r\n")
    ensures FirstLine(line + fields) == Some(line)
  {
    var text := line + fields;
    var i := Index(text, '\n');
    if fields == "" {
      assert text == line;
    } else {
      assert fields[0] == '\r' && fields[1] == '\n';
      assert text[|line|] == '\r' && text[|line| + 1] == '\n';
      assert i == |line| + 1;
      assert text[..i - 1] == line;
    }
  }

  // ----- exactly which request lines are taken -----

  predicate Blank(s: string)
  {
    forall i :: 0 <= i < |s| ==> IsSpace(s[i])
  }

  /** `s` is blanks, then this word, then what is left. */
  predicate Splits(s: string, blank: string, word: string, rest: string)
  {
    && s == blank + word + rest && Blank(blank)
    && word != "" && Solid(word) && (rest == "" || IsSpace(rest[0]))
  }

  ghost predicate Word(s: string, word: string, rest: string)
  {
    exists blank :: Splits(s, blank, word, rest)
  }

  lemma {:induction false} SkipSpaceOf(blank: string, t: string)
    requires Blank(blank) && (t == "" || !IsSpace(t[0]))
    ensures SkipSpace(blank + t) == t
    decreases |blank|
  {
    if blank == "" {
      assert blank + t == t;
    } else {
      assert IsSpace(blank[0]) && (blank + t)[1..] == blank[1..] + t;
      SkipSpaceOf(blank[1..], t);
    }
  }

  lemma {:induction false} SkipSpaceCuts(s: string) returns (blank: string)
    ensures Blank(blank) && s == blank + SkipSpace(s)
  {
    blank := "";
    if s != "" && IsSpace(s[0]) {
      var more := SkipSpaceCuts(s[1..]);
      blank := [s[0]] + more;
      assert s == [s[0]] + s[1..];
    }
  }

  /** The next word is the one the text splits into. */
  lemma NextWordExact(s: string, word: string, rest: string)
    ensures NextWord(s) == Some((word, rest)) <==> Word(s, word, rest)
  {
    if NextWord(s) == Some((word, rest)) {
      var blank := SkipSpaceCuts(s);
      assert SkipSpace(s) == word + rest;
      assert s == blank + word + rest;
      assert Splits(s, blank, word, rest);
    }
    forall blank | Splits(s, blank, word, rest)
      ensures NextWord(s) == Some((word, rest))
    {
      assert !IsSpace(word[0]) && s == blank + (word + rest);
      SkipSpaceOf(blank, word + rest);
      WordLengthOf(word, rest);
    }
  }

  /** The first line of a text: up to a line break, which may be a carriage return and a line feed, or all of it. */
  ghost predicate IsFirstLine(text: string, line: string)
  {
    && text != "" && '\n' !in line
    && (|| text == line
        || line + "\r\n" <= text
        || (line + "\n" <= text && (line == "" || line[|line| - 1] != '\r')))
  }

  lemma IndexOf(line: string, rest: string)
    requires '\n' !in line
    ensures Index(line + "\n" + rest, '\n') == |line|
  {
    var s := line + "\n" + rest;
    assert forall k :: 0 <= k < |line| ==> s[k] == line[k];
    assert s[|line|] == '\n';
  }

  lemma FirstLineIs(text: string)
    requires text != ""
    ensures FirstLine(text).Some? && IsFirstLine(text, FirstLine(text).value)
  {
    var i := Index(text, '\n');
    if i == |text| {
      assert text[..i] == text;
    } else {
      assert text == text[..i] + "\n" + text[i + 1..];
      if i > 0 && text[i - 1] == '\r' {
        assert text == text[..i - 1] + "\r\n" + text[i + 1..];
      }
    }
  }

  lemma FirstLineOnly(text: string, line: string)
    requires IsFirstLine(text, line)
    ensures FirstLine(text) == Some(line)
  {
    if line + "\r\n" <= text {
      var rest := text[|line| + 2..];
      assert text == (line + "\r") + "\n" + rest;
      IndexOf(line + "\r", rest);
      assert text[..|line|] == line && text[|line|] == '\r';
    } else if line + "\n" <= text {
      var rest := text[|line| + 1..];
      assert text == line + "\n" + rest;
      IndexOf(line, rest);
      assert text[..|line|] == line;
    } else {
      assert text == line;
    }
  }

  /** The line asks to connect to this authority: `CONNECT`, the authority, a version of HTTP, then anything. */
  ghost predicate AsksFor(line: string, authority: string)
  {
    exists r1, r2, version, r3 ::
      Word(line, "CONNECT", r1) && Word(r1, authority, r2) && Word(r2, version, r3) && "HTTP/" <= version
  }

  lemma HeaderAsks(text: string, ip: IpText)
    requires ParseHeader(text, ip).Ok?
    ensures exists line, authority ::
              && IsFirstLine(text, line) && AsksFor(line, authority)
              && ParseAuthority(authority, ip) == ParseHeader(text, ip)
  {
    hide FirstLine, NextWord, ParseAuthority, Word, IsFirstLine;
    var line := FirstLine(text).value;
    var (verb, r1) := NextWord(line).value;
    var (authority, r2) := NextWord(r1).value;
    var (version, r3) := NextWord(r2).value;
    assert text != "" by {
      NoFirstLine();
    }
    FirstLineIs(text);
    NextWordExact(line, verb, r1);
    NextWordExact(r1, authority, r2);
    NextWordExact(r2, version, r3);
    assert AsksFor(line, authority);
  }

  lemma NoFirstLine()
    ensures FirstLine("") == None
  {
  }

  lemma AskedIsParsed(text: string, line: string, authority: string, ip: IpText)
    requires IsFirstLine(text, line) && AsksFor(line, authority)
    ensures ParseHeader(text, ip) == ParseAuthority(authority, ip)
  {
    hide FirstLine, NextWord, ParseAuthority, Word, IsFirstLine;
    FirstLineOnly(text, line);
    var r1, r2, version, r3 :|
      Word(line, "CONNECT", r1) && Word(r1, authority, r2) && Word(r2, version, r3) && "HTTP/" <= version;
    NextWordExact(line, "CONNECT", r1);
    NextWordExact(r1, authority, r2);
    NextWordExact(r2, version, r3);
  }

  /** A header is taken if and only if its first line asks for an authority that can be read, and then for that target:
      any other method, a missing word or another protocol is refused. */
  lemma RequestLineExact(text: string, target: Target, port: u16, ip: IpText)
    ensures ParseHeader(text, ip) == Ok((target, port)) <==>
            exists line, authority ::
              && IsFirstLine(text, line) && AsksFor(line, authority)
              && ParseAuthority(authority, ip) == Ok((target, port))
  {
    hide ParseHeader, ParseAuthority, AsksFor, IsFirstLine;
    if ParseHeader(text, ip) == Ok((target, port)) {
      HeaderAsks(text, ip);
    }
    forall line, authority | IsFirstLine(text, line) && AsksFor(line, authority)
      ensures ParseHeader(text, ip) == ParseAuthority(authority, ip)
    {
      AskedIsParsed(text, line, authority, ip);
    }
  }

  /** However the network cuts it, a stream that starts with `CONNECT <authority> HTTP/1.1`, any header fields and a
      blank line asks for the target and port of its authority, with everything after the blank line kept; and it is
      refused exactly as its authority is. */
  lemma ConnectMeansItsAuthority(
    chunks: seq<seq<byte>>, p: nat, authority: string, fields: string, utf8: Decoder, ip: IpText)
    requires ReadChunks(chunks) && Find(Concat(chunks)) == Some(p) && p + 4 <= MAX_CONNECT_HEADER_BYTES + 1
    requires authority != "" && Solid(authority)
    requires fields == "" || (|fields| >= 2 && fields[..2] == "\r\n")
    requires utf8(Concat(chunks)[..p]) == Some("CONNECT " + authority + " HTTP/1.1" + fields)
    ensures match ParseAuthority(authority, ip)
            case Malformed(why) => ReadConnect(chunks, utf8, ip) == Malformed(why)
            case Ok((target, port)) =>
              var r := ReadConnect(chunks, utf8, ip);
              && r.Ok? && r.value.target == target && r.value.port == port
              && r.value.early + Concat(Gather([], chunks).unread) == Concat(chunks)[p + 4..]
  {
    hide Gather, Find, ParseHeader, ParseAuthority, Solid, ReadChunks;
    GatherAnyChunking(chunks, p);
    RequestLineMeaning(authority, fields, ip);
    ParsedHeader(Gather([], chunks).data, p, "CONNECT " + authority + " HTTP/1.1" + fields, utf8, ip);
  }

  lemma ParsedHeader(data: seq<byte>, p: nat, text: string, utf8: Decoder, ip: IpText)
    requires Find(data) == Some(p) && utf8(data[..p]) == Some(text)
    ensures match ParseHeader(text, ip)
            case Malformed(why) => ParseConnect(data, utf8, ip) == Malformed(why)
            case Ok((target, port)) => ParseConnect(data, utf8, ip) == Ok(Request(target, port, data[p + 4..]))
  {
    hide ParseHeader;
  }

  // ----- the loop itself -----

  method ReadConnectTarget(chunks: seq<seq<byte>>, utf8: Decoder, ip: IpText)
    returns (r: Parsed<Request>, ghost longest: nat)
    ensures r == ReadConnect(chunks, utf8, ip)
    ensures longest == Buffered([], chunks) && (ReadChunks(chunks) ==> longest <= MAX_CONNECT_HEADER_BYTES + READ_SIZE)
  {
    longest := 0;
    if ReadChunks(chunks) {
      BufferIsBounded([], chunks);
    }
    var data: seq<byte> := [];
    var i := 0;
    while true
      invariant 0 <= i <= |chunks|
      invariant Gather(data, chunks[i..]) == Gather([], chunks)
      invariant Buffered(data, chunks[i..]) == Buffered([], chunks) && longest == |data|
      decreases |chunks| - i
    {
      if i == |chunks| || chunks[i] == [] {
        return Malformed("client disconnected before CONNECT headers"), longest;
      }
      assert chunks[i..][1..] == chunks[i + 1..];
      data := data + chunks[i];
      longest := |data|;
      i := i + 1;
      if Find(data).Some? {
        break;
      }
      if |data| > MAX_CONNECT_HEADER_BYTES {
        return Malformed("CONNECT headers too large"), longest;
      }
    }
    r := ParseConnect(data, utf8, ip);
  }
}

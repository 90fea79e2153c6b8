/** The request/reply publish server: the address it gives to clients, the
    reply it sends for each request keyword, and the dictionary it publishes.
    Sockets, threads and JSON encoding are not modelled: the encoder is a
    parameter `dumps`. */
module GasServer {
  import opened Optional
  import opened Strings

  /** A JSON value, the contents of the published dictionary. */
  datatype Json =
    | Null
    | Bool(b: bool)
    | Number(n: real)
    | Text(s: string)
    | Array(items: seq<Json>)
    | Object(fields: map<string, Json>)

  type Data = map<string, Json>

  // Constructor defaults.
  const DEFAULT_ADDRESS: string := "tcp://*:1110"
  const DEFAULT_HOST: string := "localhost"

  const SCHEME_SEP: string := "://"
  const WILDCARD: string := "*"

  // ---------------------------------------------------------------------
  // Address for clients

  /** The ValueError raised by a tuple unpacking that did not get exactly two
      pieces: first from the split on "://", then from the split on ":". */
  datatype AddressError = SchemeUnpack(pieces: nat) | PortUnpack(pieces: nat)

  /** f"{proto}://{host}:{port}" */
  function FormatAddress(proto: string, host: string, port: string): (s: string)
    ensures |s| == |proto| + |host| + |port| + 4
  {
    proto + SCHEME_SEP + (host + ":" + port)
  }

  /** The host a client must use: the configured host replaces the wildcard. */
  function ClientHost(h: string, host: string): (c: string)
    ensures c == h || c == host
    ensures h != WILDCARD ==> c == h
    ensures c == WILDCARD ==> host == WILDCARD
  {
    if h == WILDCARD then host else h
  }

  /** The three pieces of an address that splits into exactly
      proto, host and port. */
  predicate WellFormed(proto: string, h: string, port: string)
  {
    && !Contains(proto, SCHEME_SEP)
    && ':' !in h
    && ':' !in port
    && !(|port| >= 2 && port[..2] == "//")
  }

  /** addressForClient: split on "://", split the rest on ":", replace a
      wildcard host. An address that is not proto://host:port fails. */
  function AddressForClient(address: string, host: string): (r: Result<string, AddressError>)
    ensures r.Success? ==>
      exists proto, h, port ::
        && WellFormed(proto, h, port)
        && address == FormatAddress(proto, h, port)
        && r.value == FormatAddress(proto, ClientHost(h, host), port)
  {
    var parts := Split(address, SCHEME_SEP);
    if |parts| != 2 then Failure(SchemeUnpack(|parts|))
    else
      var pieces := Split(parts[1], ":");
      if |pieces| != 2 then Failure(PortUnpack(|pieces|))
      else
        DecomposeAddress(address);
        Success(FormatAddress(parts[0], ClientHost(pieces[0], host), pieces[1]))
  }

  /** A string that splits into exactly two pieces is those pieces joined
      by the separator, and neither piece holds the separator. */
  lemma TwoPieces(s: string, sep: string)
    requires |sep| > 0
    requires |Split(s, sep)| == 2
    ensures var pieces := Split(s, sep);
      && s == pieces[0] + sep + pieces[1]
      && !Contains(pieces[0], sep) && !Contains(pieces[1], sep)
  {
    var pieces := Split(s, sep);
    JoinSplit(s, sep);
    SplitPiecesAreFree(s, sep);
    assert pieces[0] in pieces && pieces[1] in pieces;
    assert Join(pieces[1..], sep) == pieces[1];
  }

  /** A string holding no ":" separator holds no ':' character. */
  lemma NoColonChar(s: string)
    requires !Contains(s, ":")
    ensures ':' !in s
  {
    forall k | 0 <= k < |s| ensures s[k] != ':' {
      assert s[k..k + 1] == [s[k]];
      assert !IsAt(s, ":", k);
    }
  }

  /** An address that splits into exactly two pieces twice is the format of
      its three well-formed pieces. */
  lemma DecomposeAddress(address: string)
    requires |Split(address, SCHEME_SEP)| == 2
    requires |Split(Split(address, SCHEME_SEP)[1], ":")| == 2
    ensures var parts := Split(address, SCHEME_SEP);
      var pieces := Split(parts[1], ":");
      && WellFormed(parts[0], pieces[0], pieces[1])
      && address == FormatAddress(parts[0], pieces[0], pieces[1])
  {
    var parts := Split(address, SCHEME_SEP);
    var rest := parts[1];
    TwoPieces(address, SCHEME_SEP);
    TwoPieces(rest, ":");
    var pieces := Split(rest, ":");
    var h, port := pieces[0], pieces[1];
    NoColonChar(h);
    NoColonChar(port);
    if |port| >= 2 && port[..2] == "//" {
      SchemeAfterHost(h, port);
      assert false;
    }
  }

  /** A port starting with "//" puts a "://" right after the host. */
  lemma SchemeAfterHost(h: string, port: string)
    requires |port| >= 2 && port[..2] == "//"
    ensures IsAt(h + ":" + port, SCHEME_SEP, |h|)
  {
    var rest := h + ":" + port;
    assert rest[|h|] == ':' && rest[|h| + 1] == port[0] && rest[|h| + 2] == port[1];
    assert port[0] == '/' && port[1] == '/';
    assert rest[|h|..|h| + 3] == SCHEME_SEP;
  }

  /** In proto + "://" + rest, no occurrence of "://" starts inside proto
      when proto itself holds none. */
  lemma SchemeCutAfterProto(proto: string, rest: string)
    requires !Contains(proto, SCHEME_SEP)
    ensures forall i: nat :: i < |proto| ==> !IsAt(proto + SCHEME_SEP + rest, SCHEME_SEP, i)
  {
    var s := proto + SCHEME_SEP + rest;
    forall i: nat | i < |proto| ensures !IsAt(s, SCHEME_SEP, i) {
      if i + 3 <= |proto| {
        assert proto[i..i + 3] == s[i..i + 3];
        assert !IsAt(proto, SCHEME_SEP, i);
      } else if i + 1 == |proto| {
        assert s[i + 1] == ':';
      } else {
        assert s[i + 2] == ':';
      }
    }
  }

  /** A string without ':' holds no ":" separator. */
  lemma NoColon(s: string)
    requires ':' !in s
    ensures !Contains(s, ":")
  {
    forall i: nat | i + 1 <= |s| ensures !IsAt(s, ":", i) {
      assert s[i..i + 1] == [s[i]];
    }
  }

  /** host + ":" + port holds no "://" when the only ':' is the one between
      them and the port does not start with "//". */
  lemma NoSchemeInHostPort(h: string, port: string)
    requires ':' !in h && ':' !in port
    requires !(|port| >= 2 && port[..2] == "//")
    ensures !Contains(h + ":" + port, SCHEME_SEP)
  {
    var rest := h + ":" + port;
    forall i: nat | i + 3 <= |rest| ensures !IsAt(rest, SCHEME_SEP, i) {
      if i < |h| {
        assert rest[i] == h[i];
      } else if i == |h| {
        assert port[..2] == rest[i + 1..i + 3];
      } else {
        assert rest[i] == port[i - |h| - 1];
      }
    }
  }

  /** Every well-formed address is accepted, keeps its protocol and port, and
      has its host replaced only when it is the wildcard. */
  lemma {:induction false} AddressOfWellFormed(proto: string, h: string, port: string, host: string)
    requires WellFormed(proto, h, port)
    ensures AddressForClient(FormatAddress(proto, h, port), host)
         == Success(FormatAddress(proto, ClientHost(h, host), port))
  {
    var rest := h + ":" + port;
    SchemeCutAfterProto(proto, rest);
    SplitFirstCut(proto, SCHEME_SEP, rest);
    NoSchemeInHostPort(h, port);
    SplitFree(rest, SCHEME_SEP);
    assert Split(FormatAddress(proto, h, port), SCHEME_SEP) == [proto, rest];
    forall i: nat | i < |h| ensures !IsAt(h + ":" + port, ":", i) {
      assert rest[i..i + 1][0] == h[i];
    }
    SplitFirstCut(h, ":", port);
    NoColon(port);
    SplitFree(port, ":");
    assert Split(rest, ":") == [h, port];
  }

  /** A wildcard host is replaced by the configured host. */
  lemma WildcardReplaced(proto: string, port: string, host: string)
    requires WellFormed(proto, WILDCARD, port)
    ensures AddressForClient(proto + "://*:" + port, host) == Success(proto + "://" + host + ":" + port)
  {
    AddressOfWellFormed(proto, WILDCARD, port, host);
    assert FormatAddress(proto, WILDCARD, port) == proto + "://*:" + port;
    assert FormatAddress(proto, host, port) == proto + "://" + host + ":" + port;
  }

  /** The constructor's default address is well formed with the wildcard
      host, so by AddressOfWellFormed clients of a default server are told
      tcp://localhost:1110. */
  lemma DefaultAddressWellFormed()
    ensures WellFormed("tcp", WILDCARD, "1110")
    ensures DEFAULT_ADDRESS == FormatAddress("tcp", WILDCARD, "1110")
    ensures FormatAddress("tcp", ClientHost(WILDCARD, DEFAULT_HOST), "1110") == "tcp://localhost:1110"
  {
    var proto, port := "tcp", "1110";
    assert !IsAt(proto, SCHEME_SEP, 0) by { assert proto[0] != SCHEME_SEP[0]; }
    assert port[..2][0] == '1';
  }

  /** With the constructor's defaults, clients are told tcp://localhost:1110. */
  lemma DefaultClient()
    ensures AddressForClient(DEFAULT_ADDRESS, DEFAULT_HOST) == Success("tcp://localhost:1110")
  {
    DefaultAddressWellFormed();
    AddressOfWellFormed("tcp", WILDCARD, "1110", DEFAULT_HOST);
  }

  /** An address naming a specific host is returned unchanged. */
  lemma SpecificHostUnchanged(proto: string, h: string, port: string, host: string)
    requires WellFormed(proto, h, port) && h != WILDCARD
    ensures AddressForClient(FormatAddress(proto, h, port), host)
         == Success(FormatAddress(proto, h, port))
  {
    AddressOfWellFormed(proto, h, port, host);
  }

  /** An address without "://" fails at the first unpacking. */
  lemma NoSchemeIsError(address: string, host: string)
    requires !Contains(address, SCHEME_SEP)
    ensures AddressForClient(address, host) == Failure(SchemeUnpack(1))
  {
    SplitFree(address, SCHEME_SEP);
  }

  /** proto://rest whose rest holds no ':' or more than one fails at the
      second unpacking, with one piece more than there are colons. */
  lemma ColonCountIsError(proto: string, rest: string, host: string)
    requires !Contains(proto, SCHEME_SEP) && !Contains(rest, SCHEME_SEP)
    requires Count(rest, ':') != 1
    ensures AddressForClient(proto + SCHEME_SEP + rest, host) == Failure(PortUnpack(Count(rest, ':') + 1))
  {
    SchemeCutAfterProto(proto, rest);
    SplitFirstCut(proto, SCHEME_SEP, rest);
    SplitFree(rest, SCHEME_SEP);
    SplitCharCount(rest, ':');
    assert Split(proto + SCHEME_SEP + rest, SCHEME_SEP) == [proto, rest];
  }

  // ---------------------------------------------------------------------
  // Request dispatch

  const STOP: string := "__STOP__"
  const GET: string := "__GET__"
  const NAME: string := "__NAME__"
  const DEVICE: string := "__DEVICE__"
  const FREEDOM: string := "__FREEDOM__"
  const PING: string := "__PING__"
  const NOT_UNDERSTOOD: string := "unable to understand the demande"

  /** The request keywords the server understands. */
  const KEYWORDS: set<string> := {STOP, GET, NAME, DEVICE, FREEDOM, PING}

  /** The reply sent for one request, and whether the loop goes on. */
  datatype Step = Step(reply: string, keepRunning: bool)

  /** One iteration of the server loop on a received message. */
  function Dispatch(message: string, name: string, data: Data, dumps: Data -> string): (s: Step)
    ensures !s.keepRunning <==> message == STOP
    ensures message == STOP ==> s.reply == "stopping"
    ensures message == GET ==> s.reply == dumps(data)
    ensures message == NAME ==> s.reply == name
    ensures message == DEVICE ==> s.reply == "__GAS__"
    ensures message == FREEDOM ==> s.reply == "1"
    ensures message == PING ==> s.reply == "__PONG__"
    ensures message !in KEYWORDS ==> s.reply == NOT_UNDERSTOOD
  {
    if message == STOP then Step("stopping", false)
    else if message == GET then Step(dumps(data), true)
    else if message == NAME then Step(name, true)
    else if message == DEVICE then Step("__GAS__", true)
    else if message == FREEDOM then Step("1", true)
    else if message == PING then Step("__PONG__", true)
    else Step(NOT_UNDERSTOOD, true)
  }

  /** The replies the loop sends for a stream of messages: one per message,
      up to and including the first "__STOP__". */
  function Replies(messages: seq<string>, name: string, data: Data, dumps: Data -> string): (r: seq<string>)
    ensures |r| <= |messages|
  {
    if messages == [] then []
    else
      var s := Dispatch(messages[0], name, data, dumps);
      [s.reply] + (if s.keepRunning then Replies(messages[1..], name, data, dumps) else [])
  }

  /** Each message up to the first "__STOP__" gets exactly its own reply. */
  lemma {:induction false} RepliesAnswerEach(messages: seq<string>, name: string, data: Data, dumps: Data -> string)
    ensures var rs := Replies(messages, name, data, dumps);
      && |rs| <= |messages|
      && forall i :: 0 <= i < |rs| ==> rs[i] == Dispatch(messages[i], name, data, dumps).reply
  {
    if messages != [] {
      var s := Dispatch(messages[0], name, data, dumps);
      var tail := if s.keepRunning then Replies(messages[1..], name, data, dumps) else [];
      assert Replies(messages, name, data, dumps) == [s.reply] + tail;
      RepliesAnswerEach(messages[1..], name, data, dumps);
    }
  }

  /** The loop answers up to and including the first "__STOP__" and nothing
      after it; without a "__STOP__" every message is answered. */
  lemma {:induction false} RepliesEndAtStop(messages: seq<string>, name: string, data: Data, dumps: Data -> string)
    ensures var n := |Replies(messages, name, data, dumps)|;
      && n <= |messages|
      && (forall i :: 0 <= i < n - 1 ==> messages[i] != STOP)
      && (n < |messages| ==> messages[n - 1] == STOP)
      && (STOP !in messages ==> n == |messages|)
  {
    if messages != [] {
      var s := Dispatch(messages[0], name, data, dumps);
      var rest := messages[1..];
      if messages[0] == STOP {
        assert Replies(messages, name, data, dumps) == [s.reply];
      } else {
        var tail := Replies(rest, name, data, dumps);
        assert Replies(messages, name, data, dumps) == [s.reply] + tail;
        RepliesEndAtStop(rest, name, data, dumps);
        forall i | 1 <= i < |messages| ensures messages[i] == rest[i - 1] { }
        assert STOP !in messages ==> STOP !in rest;
      }
    }
  }

  /** Unfolds Replies once at position i. */
  lemma RepliesFrom(messages: seq<string>, i: nat, name: string, data: Data, dumps: Data -> string)
    requires i < |messages|
    ensures var s := Dispatch(messages[i], name, data, dumps);
      Replies(messages[i..], name, data, dumps)
        == [s.reply] + (if s.keepRunning then Replies(messages[i + 1..], name, data, dumps) else [])
  {
    assert messages[i..][0] == messages[i] && messages[i..][1..] == messages[i + 1..];
  }

  /** A turn of the receive loop whose reply keeps the loop running leaves
      the rest of the replies to the next message. */
  lemma ServeContinues(messages: seq<string>, i: nat, replies: seq<string>, name: string, data: Data, dumps: Data -> string)
    requires i < |messages| && messages[i] != STOP
    requires replies + Replies(messages[i..], name, data, dumps) == Replies(messages, name, data, dumps)
    ensures replies + [Dispatch(messages[i], name, data, dumps).reply] + Replies(messages[i + 1..], name, data, dumps)
         == Replies(messages, name, data, dumps)
  {
    var reply := Dispatch(messages[i], name, data, dumps).reply;
    var tail := Replies(messages[i + 1..], name, data, dumps);
    RepliesFrom(messages, i, name, data, dumps);
    assert Replies(messages[i..], name, data, dumps) == [reply] + tail;
    assert replies + [reply] + tail == replies + ([reply] + tail);
  }

  /** The reply to "__STOP__" is the last one the loop sends. */
  lemma ServeStops(messages: seq<string>, i: nat, replies: seq<string>, name: string, data: Data, dumps: Data -> string)
    requires i < |messages| && messages[i] == STOP
    requires replies + Replies(messages[i..], name, data, dumps) == Replies(messages, name, data, dumps)
    ensures STOP in messages
    ensures replies + [Dispatch(messages[i], name, data, dumps).reply] == Replies(messages, name, data, dumps)
  {
    var reply := Dispatch(messages[i], name, data, dumps).reply;
    RepliesFrom(messages, i, name, data, dumps);
    assert Replies(messages[i..], name, data, dumps) == [reply];
    assert messages[i] in messages;
  }

  // ---------------------------------------------------------------------
  // The server object

  class Server {
    const address: string
    const host: string
    const name: string
    var data: Data
    /** The loop has left after "__STOP__" and the socket is closed. */
    var stopped: bool

    /** A missing dictionary (None, or an empty one) publishes {}. */
    constructor(address: string, host: string, data: Option<Data>, name: string)
      ensures this.address == address && this.host == host && this.name == name
      ensures this.data == (if data.Some? then data.value else map[])
      ensures !stopped
    {
      stopped := false;
      this.address := address;
      this.host := host;
      this.name := name;
      this.data := if data.Some? && data.value != map[] then data.value else map[];
    }

    /** Replaces the published dictionary. */
    method SetData(newData: Data)
      modifies this`data
      ensures data == newData
    {
      data := newData;
    }

    /** The receive loop over the messages that arrive while it runs: one
        reply per message, leaving after the reply to "__STOP__". A server
        that has stopped answers nothing. */
    method Serve(messages: seq<string>, dumps: Data -> string) returns (replies: seq<string>)
      modifies this`stopped
      ensures old(stopped) ==> stopped && replies == []
      ensures !old(stopped) ==> replies == Replies(messages, name, data, dumps)
      ensures !old(stopped) ==> (stopped <==> STOP in messages)
    {
      replies := [];
      if stopped {
        return;
      }
      var i := 0;
      var name, data := this.name, this.data;
      while i < |messages|
        invariant 0 <= i <= |messages|
        invariant !stopped
        invariant forall k :: 0 <= k < i ==> messages[k] != STOP
        invariant replies + Replies(messages[i..], name, data, dumps) == Replies(messages, name, data, dumps)
      {
        var step := Dispatch(messages[i], name, data, dumps);
        if !step.keepRunning {
          ServeStops(messages, i, replies, name, data, dumps);
          replies := replies + [step.reply];
          stopped := true;
          return;
        }
        ServeContinues(messages, i, replies, name, data, dumps);
        replies := replies + [step.reply];
        i := i + 1;
      }
      assert messages[i..] == [];
    }
  }
}

/**
 The relay: one shared log with a cursor per client, the HTTP server around it, and the
 proxy that talks to the server as if it were the log itself.
 */
module Relay {
  import opened Bytes
  import opened Options
  import opened Results
  import opened HttpText
  import opened HttpMessage
  import opened HttpRoundTrip

  // --- The shared log ---

  /** `highwaters` holds for each client the index of the last message it read. */
  datatype Mem = Mem(highwaters: map<string, nat>, queue: seq<Buff>) {
    /** The index of the first message the client has not read. */
    function Cursor(id: string): nat {
      if id in highwaters then highwaters[id] + 1 else 0
    }
    function Get(id: string): (Mem, Buff) {
      var firstUnread := Cursor(id);
      if firstUnread < |queue| then (this.(highwaters := highwaters[id := firstUnread]), queue[firstUnread])
      else (this, [])
    }
    function Post(msg: Buff): Mem {
      this.(queue := queue + [msg])
    }
  }

  const EMPTY: Mem := Mem(map[], [])

  class MemState {
    var highwaters: map<string, nat>
    var queue: seq<Buff>

    ghost function Value(): Mem
      reads this
    {
      Mem(highwaters, queue)
    }

    constructor ()
      ensures Value() == EMPTY
    {
      highwaters := map[];
      queue := [];
    }

    method Get(id: string) returns (content: Buff)
      modifies this
      ensures (Value(), content) == old(Value()).Get(id)
    {
      var firstUnread := if id in highwaters then highwaters[id] + 1 else 0;
      if firstUnread < |queue| {
        highwaters := highwaters[id := firstUnread];
        content := queue[firstUnread];
      } else {
        content := [];
      }
    }

    method Post(msg: Buff)
      modifies this
      ensures Value() == old(Value()).Post(msg)
    {
      queue := queue + [msg];
    }
  }

  // --- The server ---

  /** A part of a query: what stands before and behind its first equals sign. */
  function QueryPair(part: string): (string, string) {
    match SplitOnce(part, '=')
    case Some(pair) => pair
    case None => (part, "")
  }

  function Collect(parts: seq<string>, into: map<string, string>): map<string, string>
    decreases |parts|
  {
    if parts == [] then into
    else
      var (k, v) := QueryPair(parts[0]);
      Collect(parts[1..], into[k := v])
  }

  function UrlQuery(url: string): map<string, string> {
    match SplitOnce(url, '?')
    case None => map[]
    case Some((_, right)) => if right == "" then map[] else Collect(Split(right, '&'), map[])
  }

  /** What a request does to the log, and the content of the answer. */
  function Serve(m: Mem, request: Request): (Mem, Result<Buff, IoError>) {
    match request.verb
    case GET =>
      var query := UrlQuery(request.url);
      if "id" !in query then (m, Err(InvalidData))
      else
        var (next, content) := m.Get(query["id"]);
        (next, Ok(content))
    case POST => (m.Post(request.content), Ok([]))
  }

  function Answer(content: Buff): Response {
    Response(PROTOCOL, 200, "OK", map[], content)
  }

  /** The bytes of a message without headers. */
  ghost function Bare(m: Raw): Buff
    requires m.firstLine != [] && m.headers == map[]
  {
    Written(m, [])
  }

  /** A buffer handed to the server as one request: bytes left over behind the request
      are an error, found after the request has been served. */
  ghost function RawCalled(m: Mem, msg: Buff): (Mem, Result<Buff, IoError>) {
    match RequestFrom(msg, 0)
    case Err(e) => (m, Err(e))
    case Ok(request) =>
      var (next, content) := Serve(m, request.value);
      match content
      case Err(e) => (next, Err(e))
      case Ok(c) => (next, if request.pos != |msg| then Err(InvalidData) else Ok(Bare(Answer(c).ToRaw())))
  }

  ghost function Called(m: Mem, msg: Buff): (Mem, Result<Response, IoError>) {
    var (next, raw) := RawCalled(m, msg);
    match raw
    case Err(e) => (next, Err(e))
    case Ok(bytes) =>
      match ResponseFrom(bytes, 0)
      case Err(e) => (next, Err(e))
      case Ok(response) => (next, Ok(response.value))
  }

  lemma FirstIsMember(order: seq<string>)
    ensures order == [] || order[0] in order
  {
  }

  lemma NoHeadersNoOrder(order: seq<string>, headers: map<string, string>)
    requires Enumerates(order, headers) && headers == map[]
    ensures order == []
  {
    FirstIsMember(order);
  }

  lemma NothingBefore()
    ensures forall s: Buff :: [] + s == s
  {
  }

  class Server {
    const mem: MemState

    constructor ()
      ensures fresh(mem) && mem.Value() == EMPTY
    {
      mem := new MemState();
    }

    method Update(i: Stream, o: OutStream) returns (r: Result<(), IoError>)
      requires i.Valid()
      modifies mem, i, o
      ensures i.Valid()
      ensures match RequestFrom(i.data, old(i.pos))
              case Err(e) => r == Err(e) && mem.Value() == old(mem.Value())
              case Ok(request) =>
                var (next, content) := Serve(old(mem.Value()), request.value);
                && mem.Value() == next && i.pos == request.pos
                && match content
                   case Err(e) => r == Err(e)
                   case Ok(c) => r.Ok? && o.written == old(o.written) + Bare(Answer(c).ToRaw())
    {
      hide Written, MessageFrom, UrlQuery, Enumerates;
      var message := i.ReadMessage();
      if message.Err? {
        return Err(message.error);
      }
      var parsed := ParseRequest(message.value);
      if parsed.Err? {
        return Err(parsed.error);
      }
      var request := parsed.value;
      var content: Buff := [];
      match request.verb {
        case GET =>
          var query := UrlQuery(request.url);
          if "id" !in query {
            return Err(InvalidData);
          }
          content := mem.Get(query["id"]);
        case POST =>
          mem.Post(request.content);
      }
      var response := Answer(content);
      ghost var order := o.WriteMessage(response.ToRaw());
      NoHeadersNoOrder(order, response.headers);
      return Ok(());
    }

    method RawCall(msg: Buff) returns (r: Result<Buff, IoError>)
      modifies mem
      ensures (mem.Value(), r) == RawCalled(old(mem.Value()), msg)
    {
      hide RequestFrom, Serve, Written;
      NothingBefore();
      var i := new Stream(msg);
      var o := new OutStream();
      var updated := Update(i, o);
      if updated.Err? {
        return Err(updated.error);
      }
      if i.pos != |msg| {
        return Err(InvalidData);
      }
      return Ok(o.written);
    }

    method Call(request: Request) returns (r: Result<Response, IoError>, ghost order: seq<string>)
      modifies mem
      ensures Enumerates(order, request.headers)
      ensures (mem.Value(), r) == Called(old(mem.Value()), Written(request.ToRaw(), order))
    {
      hide RawCalled, Written, Enumerates, MessageFrom;
      NothingBefore();
      var requestStream := new OutStream();
      order := requestStream.WriteMessage(request.ToRaw());
      var raw := RawCall(requestStream.written);
      if raw.Err? {
        return Err(raw.error), order;
      }
      var responseStream := new Stream(raw.value);
      var message := responseStream.ReadMessage();
      if message.Err? {
        return Err(message.error), order;
      }
      r := ParseResponse(message.value);
    }
  }

  // --- The proxy ---

  function GetRequest(id: string): Request {
    Request(GET, "/?id=" + id, PROTOCOL, map[], [])
  }

  function PostRequest(msg: Buff): Request {
    Request(POST, "/", PROTOCOL, map[], msg)
  }

  ghost function ProxyGet(m: Mem, id: string): (Mem, Result<Buff, IoError>) {
    var (next, r) := Called(m, Bare(GetRequest(id).ToRaw()));
    (next, match r case Err(e) => Err(e) case Ok(response) => Ok(response.content))
  }

  ghost function ProxyPost(m: Mem, msg: Buff): (Mem, Result<(), IoError>) {
    var (next, r) := Called(m, Bare(PostRequest(msg).ToRaw()));
    (next, match r case Err(e) => Err(e) case Ok(_) => Ok(()))
  }

  class ProxyState {
    const server: Server

    constructor (server: Server)
      ensures this.server == server
    {
      this.server := server;
    }

    method Get(id: string) returns (r: Result<Buff, IoError>)
      modifies server.mem
      ensures (server.mem.Value(), r) == ProxyGet(old(server.mem.Value()), id)
    {
      hide Called, Written, Enumerates;
      var response, order := server.Call(GetRequest(id));
      NoHeadersNoOrder(order, GetRequest(id).headers);
      if response.Err? {
        return Err(response.error);
      }
      return Ok(response.value.content);
    }

    method Post(msg: Buff) returns (r: Result<(), IoError>)
      modifies server.mem
      ensures (server.mem.Value(), r) == ProxyPost(old(server.mem.Value()), msg)
    {
      hide Called, Written, Enumerates;
      var response, order := server.Call(PostRequest(msg));
      NoHeadersNoOrder(order, PostRequest(msg).headers);
      if response.Err? {
        return Err(response.error);
      }
      return Ok(());
    }
  }

  // --- What the server refuses ---

  /** A buffer that starts with a written request: the request is served; the answer is an
      error, all the same, when bytes are left over behind it. */
  lemma RawCallTakesAll(m: Mem, request: Request, order: seq<string>, rest: Buff)
    requires WellHeaders(request.headers) && Enumerates(order, request.headers) && |request.content| < USIZE_LIMIT
    requires Plain(request.url) && Plain(request.protocol)
    ensures var (next, content) := Serve(m, request);
            var answer := match content
              case Err(e) => Err(e)
              case Ok(c) => if rest != [] then Err(InvalidData) else Ok(Bare(Answer(c).ToRaw()));
            RawCalled(m, Written(request.ToRaw(), order) + rest) == (next, answer)
  {
    hide RequestFrom, Written, Plain, WellHeaders, Serve;
    RequestReads(request, order, rest);
  }

  /** A read without a query names no client and is refused. */
  lemma NoQueryRefused(m: Mem, request: Request)
    requires request.verb == GET && '?' !in request.url
    ensures Serve(m, request) == (m, Err(InvalidData))
  {
    SplitNone(request.url, '?');
  }

  // --- The proxy is the log ---

  /** The ids that reach the server as they are. */
  predicate GoodId(id: string) {
    Plain(id) && '&' !in id
  }

  /** The id under which the server serves the proxy's request for `id`. */
  ghost function ServedId(id: string): Option<string> {
    match RequestFrom(Bare(GetRequest(id).ToRaw()), 0)
    case Err(_) => None
    case Ok(request) =>
      var query := UrlQuery(request.value.url);
      if "id" in query then Some(query["id"]) else None
  }

  lemma QueryOfGoodId(id: string)
    requires '&' !in id
    ensures var query := UrlQuery("/?id=" + id); "id" in query && query["id"] == id
  {
    hide Split, SplitOnce, IndexOf;
    var right := "id=" + id;
    assert "/?id=" + id == "/" + ['?'] + right;
    SplitOnceAt("/", '?', right);
    assert right == "id" + ['='] + id;
    SplitOnceAt("id", '=', id);
    SplitNone(right, '&');
    assert Collect([right][1..], map["id" := id]) == map["id" := id];
  }

  lemma {:induction false} CollectWithin(parts: seq<string>, into: map<string, string>, c: char)
    requires forall k :: 0 <= k < |parts| ==> c !in parts[k]
    requires forall k :: k in into ==> c !in into[k]
    ensures forall k :: k in Collect(parts, into) ==> c !in Collect(parts, into)[k]
    decreases |parts|
  {
    if parts != [] {
      var (k, v) := QueryPair(parts[0]);
      CollectWithin(parts[1..], into[k := v], c);
    }
  }

  /** No value of a query holds an ampersand or a character that the url does not. */
  lemma QueryWithin(url: string, key: string, c: char)
    requires key in UrlQuery(url) && (c == '&' || c !in url)
    ensures c !in UrlQuery(url)[key]
  {
    hide Collect, IndexOf;
    var right := SplitOnce(url, '?').value.1;
    CollectWithin(Split(right, '&'), map[], c);
  }

  lemma PlainUrl(id: string)
    requires Plain(id)
    ensures Plain("/?id=" + id)
  {
  }

  lemma PlainConstants()
    ensures Plain(PROTOCOL) && Plain("/") && Plain("OK")
  {
  }

  lemma GetRequestReads(id: string)
    requires Plain(id)
    ensures var msg := Bare(GetRequest(id).ToRaw()); RequestFrom(msg, 0) == Ok(Read(GetRequest(id), |msg|))
  {
    hide RequestFrom, Written, Plain;
    var msg := Bare(GetRequest(id).ToRaw());
    PlainUrl(id);
    PlainConstants();
    RequestReads(GetRequest(id), [], []);
    assert msg + [] == msg;
  }

  /** The server sees exactly the id that the proxy was given if and only if the id is
      ASCII without space, carriage return or ampersand. */
  lemma ServedIdExact(id: string)
    ensures ServedId(id) == Some(id) <==> GoodId(id)
  {
    hide RequestFrom, Written, UrlQuery, Plain, ReadBack;
    var msg := Bare(GetRequest(id).ToRaw());
    if GoodId(id) {
      GetRequestReads(id);
      QueryOfGoodId(id);
    } else if ServedId(id) == Some(id) {
      ServedIdIsPlain(id);
      if Ascii(id) {
        PlainIs(id);
      }
      NonAsciiRenamed(id);
    }
  }

  lemma PlainIs(s: string)
    ensures Plain(s) <==> Ascii(s) && ' ' !in s && '\r' !in s
  {
  }

  lemma ServedIdIsPlain(id: string)
    requires ServedId(id).Some?
    ensures var seen := ServedId(id).value; ' ' !in seen && '\r' !in seen && '&' !in seen
  {
    hide UrlQuery, Written, MessageFrom;
    var request := RequestFrom(Bare(GetRequest(id).ToRaw()), 0).value.value;
    QueryWithin(request.url, "id", ' ');
    QueryWithin(request.url, "id", '\r');
    QueryWithin(request.url, "id", '&');
  }

  /** An id with characters beyond ASCII reaches the server as another one. */
  lemma NonAsciiRenamed(id: string)
    requires ' ' !in id && '\r' !in id && '&' !in id
    ensures ServedId(id) == Some(ReadBack(id))
    ensures ReadBack(id) == id <==> Ascii(id)
  {
    hide MessageFrom, Written, UrlQuery, ReadBack, Join, Split, Utf8;
    var m := GetRequest(id);
    var msg := Bare(m.ToRaw());
    AtStart(msg, []);
    assert msg + [] == msg;
    NoReturn("GET", m.url, PROTOCOL);
    MessageReads(msg, 0, m.ToRaw(), []);
    ThreeFieldsSplit("GET", m.url, PROTOCOL);
    ReadBackIsAscii("GET");
    ReadBackIsAscii(PROTOCOL);
    ReadBackIsAscii("/?id=");
    ReadBackConcat("/?id=", id);
    ReadBackContains(id, '&');
    QueryOfGoodId(ReadBack(id));
    ReadBackIsAscii(id);
  }

  lemma AnswerReads(content: Buff)
    requires |content| < USIZE_LIMIT
    ensures var bytes := Bare(Answer(content).ToRaw());
            ResponseFrom(bytes, 0) == Ok(Read(Answer(content), |bytes|))
  {
    hide ResponseFrom, Written, Plain;
    var bytes := Bare(Answer(content).ToRaw());
    PlainConstants();
    ResponseReads(Answer(content), [], []);
    assert bytes + [] == bytes;
  }

  /** Messages that a length of the machine can count. */
  predicate Countable(m: Mem) {
    forall k :: 0 <= k < |m.queue| ==> |m.queue[k]| < USIZE_LIMIT
  }

  lemma ProxyGetIsGet(m: Mem, id: string)
    requires GoodId(id) && Countable(m)
    ensures var (next, content) := m.Get(id); ProxyGet(m, id) == (next, Ok(content))
  {
    hide RequestFrom, ResponseFrom, Written, UrlQuery, Plain;
    GetRequestReads(id);
    QueryOfGoodId(id);
    AnswerReads(m.Get(id).1);
  }

  lemma ProxyPostIsPost(m: Mem, msg: Buff)
    requires |msg| < USIZE_LIMIT
    ensures ProxyPost(m, msg) == (m.Post(msg), Ok(()))
  {
    hide RequestFrom, ResponseFrom, Written, UrlQuery, Plain;
    var bytes := Bare(PostRequest(msg).ToRaw());
    PlainConstants();
    RequestReads(PostRequest(msg), [], []);
    assert bytes + [] == bytes;
    AnswerReads([]);
  }

  // --- Runs ---

  datatype Op = Get(id: string) | Post(msg: Buff)
  datatype Reply = Got(content: Buff) | Posted | Failed(error: IoError)

  function Run(m: Mem, ops: seq<Op>): (Mem, seq<Reply>)
    decreases |ops|
  {
    if ops == [] then (m, [])
    else
      var (next, reply) :=
        match ops[0]
        case Get(id) => (m.Get(id).0, Got(m.Get(id).1))
        case Post(msg) => (m.Post(msg), Posted);
      var (final, replies) := Run(next, ops[1..]);
      (final, [reply] + replies)
  }

  ghost function ProxyRun(m: Mem, ops: seq<Op>): (Mem, seq<Reply>)
    decreases |ops|
  {
    if ops == [] then (m, [])
    else
      var (next, reply) :=
        match ops[0]
        case Get(id) =>
          var (n, r) := ProxyGet(m, id);
          (n, match r case Ok(content) => Got(content) case Err(e) => Failed(e))
        case Post(msg) =>
          var (n, r) := ProxyPost(m, msg);
          (n, match r case Ok(_) => Posted case Err(e) => Failed(e));
      var (final, replies) := ProxyRun(next, ops[1..]);
      (final, [reply] + replies)
  }

  predicate GoodOp(op: Op) {
    match op
    case Get(id) => GoodId(id)
    case Post(msg) => |msg| < USIZE_LIMIT
  }

  /** Refinement: whatever is posted and asked for, and in whatever order, the proxy over
      the server answers exactly as the log itself and leaves it in the same state. */
  lemma {:induction false} ProxyRefinesMem(m: Mem, ops: seq<Op>)
    requires Countable(m) && forall k :: 0 <= k < |ops| ==> GoodOp(ops[k])
    ensures ProxyRun(m, ops) == Run(m, ops)
    decreases |ops|
  {
    hide ProxyGet, ProxyPost, GoodId;
    if ops != [] {
      assert GoodOp(ops[0]);
      match ops[0]
      case Get(id) =>
        ProxyGetIsGet(m, id);
        ProxyRefinesMem(m.Get(id).0, ops[1..]);
      case Post(msg) =>
        ProxyPostIsPost(m, msg);
        ProxyRefinesMem(m.Post(msg), ops[1..]);
    }
  }

  // --- Every client reads the one log ---

  /** No cursor is past the end of the log. */
  ghost predicate Sound(m: Mem) {
    forall id :: m.Cursor(id) <= |m.queue|
  }

  /** The messages that the requests of `id` deliver, in order. */
  function Delivered(m: Mem, ops: seq<Op>, id: string): seq<Buff>
    decreases |ops|
  {
    if ops == [] then []
    else
      match ops[0]
      case Get(other) =>
        var (next, content) := m.Get(other);
        (if other == id && next != m then [content] else []) + Delivered(next, ops[1..], id)
      case Post(msg) => Delivered(m.Post(msg), ops[1..], id)
  }

  function Posts(ops: seq<Op>): seq<Buff>
    decreases |ops|
  {
    if ops == [] then []
    else (if ops[0].Post? then [ops[0].msg] else []) + Posts(ops[1..])
  }

  lemma GetStep(m: Mem, other: string, id: string)
    requires Sound(m)
    ensures var next := m.Get(other).0;
            && Sound(next) && next.queue == m.queue
            && (other != id ==> next.Cursor(id) == m.Cursor(id))
            && (other == id ==> next.Cursor(id) == if m.Cursor(id) < |m.queue| then m.Cursor(id) + 1 else m.Cursor(id))
            && (next != m <==> m.Cursor(other) < |m.queue|)
  {
    var next := m.Get(other).0;
    if m.Cursor(other) < |m.queue| {
      assert next.Cursor(other) == m.Cursor(other) + 1;
    }
    forall i: string
      ensures next.Cursor(i) <= |next.queue|
    {
      assert m.Cursor(i) <= |m.queue|;
    }
  }

  lemma PostStep(m: Mem, msg: Buff)
    requires Sound(m)
    ensures Sound(m.Post(msg))
  {
    forall i: string
      ensures m.Post(msg).Cursor(i) <= |m.queue| + 1
    {
      assert m.Cursor(i) <= |m.queue|;
    }
  }

  lemma StretchCons(log: seq<Buff>, from: nat, upTo: nat)
    requires from < upTo <= |log|
    ensures [log[from]] + log[from + 1..upTo] == log[from..upTo]
  {
  }

  lemma {:induction false} DeliveredStretch(m: Mem, ops: seq<Op>, id: string)
    requires Sound(m)
    ensures var final := Run(m, ops).0;
            && Sound(final) && final.queue == m.queue + Posts(ops)
            && m.Cursor(id) <= final.Cursor(id) <= |final.queue|
            && Delivered(m, ops, id) == final.queue[m.Cursor(id)..final.Cursor(id)]
    decreases |ops|
  {
    hide Sound, Mem.Get, Mem.Cursor;
    if ops == [] {
      assert m.queue + [] == m.queue;
      SoundCursor(m, id);
    } else {
      var final := Run(m, ops).0;
      match ops[0]
      case Get(other) =>
        var next := m.Get(other).0;
        GetStep(m, other, id);
        GetReads(m, other);
        DeliveredStretch(next, ops[1..], id);
        if other == id && next != m {
          StretchCons(final.queue, m.Cursor(id), final.Cursor(id));
        }
      case Post(msg) =>
        var next := m.Post(msg);
        PostStep(m, msg);
        CursorKept(m, msg, id);
        DeliveredStretch(next, ops[1..], id);
        assert m.queue + [msg] + Posts(ops[1..]) == m.queue + ([msg] + Posts(ops[1..]));
    }
  }

  lemma SoundCursor(m: Mem, id: string)
    requires Sound(m)
    ensures m.Cursor(id) <= |m.queue|
  {
  }

  lemma CursorKept(m: Mem, msg: Buff, id: string)
    ensures m.Post(msg).Cursor(id) == m.Cursor(id)
  {
  }

  lemma GetReads(m: Mem, id: string)
    ensures m.Cursor(id) < |m.queue| ==> m.Get(id).1 == m.queue[m.Cursor(id)]
  {
  }

  /** The log is what was posted, in order, and what any client has been delivered is the
      part of it before its cursor: a prefix, without gaps or repetitions. */
  lemma ReadsArePrefix(ops: seq<Op>, id: string)
    ensures var final := Run(EMPTY, ops).0;
            && final.queue == Posts(ops)
            && final.Cursor(id) <= |Posts(ops)|
            && Delivered(EMPTY, ops, id) == Posts(ops)[..final.Cursor(id)]
  {
    DeliveredStretch(EMPTY, ops, id);
    assert [] + Posts(ops) == Posts(ops);
    assert Sound(Run(EMPTY, ops).0);
  }

  /** The run without the requests of other clients. */
  function Without(ops: seq<Op>, id: string): seq<Op>
    decreases |ops|
  {
    if ops == [] then []
    else (if ops[0].Post? || ops[0].id == id then [ops[0]] else []) + Without(ops[1..], id)
  }

  function Replies(m: Mem, ops: seq<Op>, id: string): seq<Buff>
    decreases |ops|
  {
    if ops == [] then []
    else
      match ops[0]
      case Get(other) => (if other == id then [m.Get(other).1] else []) + Replies(m.Get(other).0, ops[1..], id)
      case Post(msg) => Replies(m.Post(msg), ops[1..], id)
  }

  /** Two logs that a client cannot tell apart. */
  predicate SameFor(a: Mem, b: Mem, id: string) {
    a.queue == b.queue && a.Cursor(id) == b.Cursor(id)
  }

  lemma {:induction false} SameReplies(a: Mem, b: Mem, ops: seq<Op>, id: string)
    requires SameFor(a, b, id)
    ensures Replies(a, ops, id) == Replies(b, Without(ops, id), id)
    decreases |ops|
  {
    if ops != [] {
      var kept := Without(ops, id);
      match ops[0]
      case Get(other) =>
        if other == id {
          assert kept[1..] == Without(ops[1..], id);
          SameReplies(a.Get(id).0, b.Get(id).0, ops[1..], id);
        } else {
          assert kept == Without(ops[1..], id);
          SameReplies(a.Get(other).0, b, ops[1..], id);
        }
      case Post(msg) =>
        assert kept[1..] == Without(ops[1..], id);
        SameReplies(a.Post(msg), b.Post(msg), ops[1..], id);
    }
  }

  /** A client is answered as if the other clients did not exist. */
  lemma OthersDoNotMatter(ops: seq<Op>, id: string)
    ensures Replies(EMPTY, ops, id) == Replies(EMPTY, Without(ops, id), id)
  {
    SameReplies(EMPTY, EMPTY, ops, id);
  }

  // --- The listener in front of the relay ---

  /** The inbound queue of `net.rs`: new messages are pushed at, and taken from, its end. */
  class HttpNetListen<M> {
    var inQueue: seq<M>

    constructor ()
      ensures inQueue == []
    {
      inQueue := [];
    }

    /** What a request to the relay brought: at most one message. */
    method Poll(answer: Option<M>)
      modifies this
      ensures inQueue == Polled(old(inQueue), answer)
    {
      if answer.Some? {
        inQueue := inQueue + [answer.value];
      }
    }

    method NextMessage() returns (m: Option<M>)
      modifies this
      ensures (inQueue, m) == Popped(old(inQueue))
    {
      if inQueue == [] {
        return None;
      }
      m := Some(inQueue[|inQueue| - 1]);
      inQueue := inQueue[..|inQueue| - 1];
    }
  }

  function Polled<M>(inQueue: seq<M>, answer: Option<M>): seq<M> {
    if answer.Some? then inQueue + [answer.value] else inQueue
  }

  function Popped<M>(inQueue: seq<M>): (seq<M>, Option<M>) {
    if inQueue == [] then (inQueue, None)
    else (inQueue[..|inQueue| - 1], Some(inQueue[|inQueue| - 1]))
  }

  /** A client that answers each of its turns with one poll and one look into the queue,
      while others post and read. What it decodes of an answer may be nothing. */
  function Heard<M>(decode: Buff -> Option<M>, m: Mem, inQueue: seq<M>, ops: seq<Op>, id: string): seq<M>
    decreases |ops|
  {
    if ops == [] then []
    else
      match ops[0]
      case Post(msg) => Heard(decode, m.Post(msg), inQueue, ops[1..], id)
      case Get(other) =>
        var (next, content) := m.Get(other);
        if other != id then Heard(decode, next, inQueue, ops[1..], id)
        else
          var (left, message) := Popped(Polled(inQueue, decode(content)));
          (if message.Some? then [message.value] else []) + Heard(decode, next, left, ops[1..], id)
  }

  function Decoded<M>(decode: Buff -> Option<M>, log: seq<Buff>): seq<M>
    decreases |log|
  {
    if log == [] then []
    else (if decode(log[0]).Some? then [decode(log[0]).value] else []) + Decoded(decode, log[1..])
  }

  lemma PopsWhatWasPolled<M>(answer: Option<M>)
    ensures Popped(Polled([], answer)) == ([], answer)
  {
    if answer.Some? {
      assert [] + [answer.value] == [answer.value];
    }
  }

  /** Although the queue is last in, first out, the client hears the messages of the log
      in their order, because no poll finds an older message in the queue. */
  lemma {:induction false} HeardInOrder<M>(decode: Buff -> Option<M>, m: Mem, ops: seq<Op>, id: string)
    requires decode([]) == None
    ensures Heard(decode, m, [], ops, id) == Decoded(decode, Delivered(m, ops, id))
    decreases |ops|
  {
    if ops != [] {
      match ops[0]
      case Post(msg) => HeardInOrder(decode, m.Post(msg), ops[1..], id);
      case Get(other) =>
        var (next, content) := m.Get(other);
        HeardInOrder(decode, next, ops[1..], id);
        assert [] + Delivered(next, ops[1..], id) == Delivered(next, ops[1..], id);
        assert [] + Heard(decode, next, [], ops[1..], id) == Heard(decode, next, [], ops[1..], id);
        if other == id {
          PopsWhatWasPolled(decode(content));
          if next != m {
            assert ([content] + Delivered(next, ops[1..], id))[1..] == Delivered(next, ops[1..], id);
          } else {
            GetMoves(m, id);
          }
        }
    }
  }

  lemma GetMoves(m: Mem, id: string)
    ensures m.Get(id).0 != m <==> m.Cursor(id) < |m.queue|
  {
    if m.Cursor(id) < |m.queue| {
      assert m.Get(id).0.Cursor(id) == m.Cursor(id) + 1;
    }
  }

  /** Two polls before the first look would hand out the newer message first. */
  lemma TwoPollsReverse<M>(a: M, b: M)
    ensures var (left, first) := Popped(Polled(Polled([], Some(a)), Some(b)));
            first == Some(b) && Popped(left).1 == Some(a)
  {
    var both := Polled(Polled([], Some(a)), Some(b));
    assert both == [a, b];
    assert both[..1] == [a];
  }
}

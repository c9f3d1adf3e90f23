/**
 * The command framer of the telnet service (src/telnet_service.cc:38-115).
 * Parsing JSON is left abstract: a test for validity and a lookup of the "type".
 */
module Telnet {
  import opened Wrappers

  const BUFFER: nat := 128

  datatype Command = AddChannel | DeleteChannel | PropertyChannel | AddStaticImage | DeleteStaticImage
  datatype Event = Event(command: Command, text: string)

  // ---- Framing ----

  /** One arrival of bytes: what is kept, and the request if it is complete. */
  function Feed(req: string, chunk: string): (string, Option<string>) {
    var r := req + chunk;
    if |r| > 2 && (r[|r| - 1] == '\n' || r[|r| - 2] == '\r') then ("", Some(r)) else (r, None)
  }

  function Several(done: Option<string>): seq<string> {
    if done.Some? then [done.value] else []
  }

  function FeedAll(req: string, chunks: seq<string>): (string, seq<string>)
    decreases |chunks|
  {
    if chunks == [] then (req, [])
    else
      var (kept, done) := Feed(req, chunks[0]);
      var (left, more) := FeedAll(kept, chunks[1..]);
      (left, Several(done) + more)
  }

  lemma {:induction false} FeedAllThen(req: string, chunks: seq<string>, c: string)
    ensures FeedAll(req, chunks + [c]) ==
      var (kept, done) := FeedAll(req, chunks);
      (Feed(kept, c).0, done + Several(Feed(kept, c).1))
    decreases |chunks|
  {
    if chunks == [] {
      assert (chunks + [c])[1..] == [];
      assert Several(Feed(req, c).1) + [] == [] + Several(Feed(req, c).1);
    } else {
      assert (chunks + [c])[1..] == chunks[1..] + [c];
      var (kept, done) := Feed(req, chunks[0]);
      FeedAllThen(kept, chunks[1..], c);
      var (left, more) := FeedAll(kept, chunks[1..]);
      var last := Several(Feed(left, c).1);
      assert Several(done) + (more + last) == (Several(done) + more) + last;
    }
  }

  lemma {:induction false} OneMoreChunk(req: string, chunks: seq<string>, i: nat, kept: string, done: seq<string>)
    requires i < |chunks| && FeedAll(req, chunks[..i]) == (kept, done)
    ensures FeedAll(req, chunks[..i + 1]) == (Feed(kept, chunks[i]).0, done + Several(Feed(kept, chunks[i]).1))
  {
    FeedAllThen(req, chunks[..i], chunks[i]);
    assert chunks[..i + 1] == chunks[..i] + [chunks[i]];
  }

  // ---- Dispatch ----

  function CommandOf(kind: string): Option<Command> {
    if kind == "recieve/channel/add" then Some(AddChannel)
    else if kind == "recieve/channel/delete" then Some(DeleteChannel)
    else if kind == "recieve/channel/property" then Some(PropertyChannel)
    else if kind == "resource/static-image/add" then Some(AddStaticImage)
    else if kind == "resource/static-image/delete" then Some(DeleteStaticImage)
    else None
  }

  class Client {
    var req: string
    var closed: bool

    constructor ()
      ensures req == "" && !closed
    {
      req, closed := "", false;
    }
  }

  /** The "type" of a request that is valid JSON.  Converting one that is not a
      string to a string throws. */
  datatype Lookup = Absent | NotAString | Kind(kind: string)

  class Service {
    const accepts: string -> bool
    const typeOf: string -> Lookup
    var events: seq<Event>

    constructor (accepts: string -> bool, typeOf: string -> Lookup)
      ensures this.accepts == accepts && this.typeOf == typeOf && events == []
    {
      this.accepts, this.typeOf, events := accepts, typeOf, [];
    }

    /** The event a complete request gives rise to; unknown ones are dropped. */
    function Dispatched(text: string): seq<Event> {
      if accepts(text) && typeOf(text).Kind? && CommandOf(typeOf(text).kind).Some?
      then [Event(CommandOf(typeOf(text).kind).value, text)]
      else []
    }

    predicate Throws(text: string) {
      accepts(text) && typeOf(text).NotAString?
    }

    function DispatchedAll(texts: seq<string>): seq<Event> {
      if texts == [] then [] else Dispatched(texts[0]) + DispatchedAll(texts[1..])
    }

    /** `data` is what `recv` returned; no data means that the peer is gone.  An
        exception leaves the request where it is, and no event. */
    method OnRecv(cli: Client, data: string) returns (threw: bool)
      requires |data| <= BUFFER && !cli.closed
      modifies this`events, cli
      ensures data == "" ==> !threw && cli.closed && cli.req == old(cli.req) && events == old(events)
      ensures data != "" ==> !cli.closed
      ensures var done := Feed(old(cli.req), data).1;
        && (threw <==> data != "" && done.Some? && Throws(done.value))
        && (threw ==> cli.req == old(cli.req) + data && events == old(events))
      ensures var r := old(cli.req) + data;
        threw <==>
          data != "" && |r| > 2 && (r[|r| - 1] == '\n' || r[|r| - 2] == '\r') && accepts(r) && typeOf(r) == NotAString
      ensures data != "" && !threw ==>
        && cli.req == Feed(old(cli.req), data).0
        && events == old(events) + DispatchedAll(Several(Feed(old(cli.req), data).1))
      ensures data != "" && !threw ==>
        var r := old(cli.req) + data;
        cli.req == if |r| > 2 && (r[|r| - 1] == '\n' || r[|r| - 2] == '\r') then "" else r
      ensures data != "" && !threw && cli.req != "" ==> events == old(events)
      ensures data != "" && !threw && cli.req == "" ==>
        var r := old(cli.req) + data;
        if !accepts(r) then events == old(events)
        else match typeOf(r)
          case Kind("recieve/channel/add") => events == old(events) + [Event(AddChannel, r)]
          case Kind("recieve/channel/delete") => events == old(events) + [Event(DeleteChannel, r)]
          case Kind("recieve/channel/property") => events == old(events) + [Event(PropertyChannel, r)]
          case Kind("resource/static-image/add") => events == old(events) + [Event(AddStaticImage, r)]
          case Kind("resource/static-image/delete") => events == old(events) + [Event(DeleteStaticImage, r)]
          case _ => events == old(events)
    {
      if |data| <= 0 {
        cli.closed := true;
        return false;
      }
      cli.req := cli.req + data;
      var len := |cli.req|;
      if len > 2 {
        if cli.req[len - 1] == '\n' || cli.req[len - 2] == '\r' {
          assert DispatchedAll([cli.req]) == Dispatched(cli.req) + DispatchedAll([]);
          if accepts(cli.req) {
            var found := typeOf(cli.req);
            if found.NotAString? {
              return true;
            }
            if found.Kind? {
              var command := CommandOf(found.kind);
              if command.Some? {
                events := events + [Event(command.value, cli.req)];
              }
            }
          }
          cli.req := "";
        }
      }
      return false;
    }

    lemma {:induction false} DispatchBoth(a: seq<string>, b: seq<string>)
      ensures DispatchedAll(a + b) == DispatchedAll(a) + DispatchedAll(b)
      decreases |a|
    {
      if a == [] {
        assert a + b == b;
      } else {
        assert (a + b)[1..] == a[1..] + b;
        DispatchBoth(a[1..], b);
      }
    }

    lemma {:induction false} DispatchMore(events: seq<Event>, done: seq<string>, now: seq<string>)
      ensures events + DispatchedAll(done) + DispatchedAll(now) == events + DispatchedAll(done + now)
    {
      DispatchBoth(done, now);
    }

    /** The event loop, for one client: it handles all chunks, or ends with the
        first one that completes a request whose type is not a string. */
    method Serve(cli: Client, chunks: seq<string>) returns (n: nat)
      requires !cli.closed
      requires forall i :: 0 <= i < |chunks| ==> 0 < |chunks[i]| <= BUFFER
      modifies this`events, cli
      ensures n <= |chunks| && !cli.closed
      ensures events == old(events) + DispatchedAll(FeedAll(old(cli.req), chunks[..n]).1)
      ensures forall i :: 0 <= i < |FeedAll(old(cli.req), chunks[..n]).1| ==> !Throws(FeedAll(old(cli.req), chunks[..n]).1[i])
      ensures n == |chunks| ==> chunks[..n] == chunks && cli.req == FeedAll(old(cli.req), chunks).0
      ensures n < |chunks| ==>
        var done := Feed(FeedAll(old(cli.req), chunks[..n]).0, chunks[n]).1; done.Some? && Throws(done.value)
    {
      n := 0;
      ghost var done: seq<string> := [];
      while n < |chunks|
        invariant n <= |chunks| && !cli.closed
        invariant FeedAll(old(cli.req), chunks[..n]) == (cli.req, done)
        invariant events == old(events) + DispatchedAll(done)
        invariant forall i :: 0 <= i < |done| ==> !Throws(done[i])
      {
        ghost var now := Several(Feed(cli.req, chunks[n]).1);
        OneMoreChunk(old(cli.req), chunks, n, cli.req, done);
        var threw := OnRecv(cli, chunks[n]);
        if threw {
          return;
        }
        DispatchMore(old(events), done, now);
        done := done + now;
        n := n + 1;
      }
    }
  }

  // ---- Chunking ----

  function Line(command: string): string { command + "\r\n" }

  function Lines(commands: seq<string>): seq<string> {
    seq(|commands|, i requires 0 <= i < |commands| => Line(commands[i]))
  }

  predicate IsCommand(c: string) {
    c != "" && forall i :: 0 <= i < |c| ==> c[i] != '\r' && c[i] != '\n'
  }

  function Flat(parts: seq<string>): string {
    if parts == [] then "" else parts[0] + Flat(parts[1..])
  }

  /** No chunk reaches past the end of the line it ends up in; `req` is the part
      of the first line that has arrived already. */
  predicate NoChunkCrosses(req: string, chunks: seq<string>, commands: seq<string>)
    decreases |chunks|
  {
    if chunks == [] then req == "" && commands == []
    else if commands == [] then false
    else
      var r := req + chunks[0];
      if |r| < |Line(commands[0])| then NoChunkCrosses(r, chunks[1..], commands)
      else |r| == |Line(commands[0])| && NoChunkCrosses("", chunks[1..], commands[1..])
  }

  lemma {:induction false} PartOfALine(command: string, r: string)
    requires IsCommand(command) && r <= Line(command)
    ensures Feed("", r) == if r == Line(command) then ("", Some(r)) else (r, None)
  {
    var line := Line(command);
    assert line[|command|] == '\r' && line[|command| + 1] == '\n';
    assert "" + r == r;
    if |r| < |line| {
      assert forall i :: 0 <= i < |command| ==> line[i] == command[i];
    }
  }

  /** Whatever is completed first contains everything received so far. */
  lemma {:induction false} FirstCompletedIsLong(req: string, chunks: seq<string>)
    ensures FeedAll(req, chunks).1 != [] ==> |FeedAll(req, chunks).1[0]| >= |req|
    decreases |chunks|
  {
    if chunks != [] {
      FirstCompletedIsLong(Feed(req, chunks[0]).0, chunks[1..]);
    }
  }

  ghost predicate Pending(req: string, commands: seq<string>) {
    req == "" || (commands != [] && req <= Line(commands[0]) && req != Line(commands[0]))
  }

  lemma {:induction false} LinesTail(commands: seq<string>)
    requires commands != []
    ensures Lines(commands)[0] == Line(commands[0]) && Lines(commands)[1..] == Lines(commands[1..])
    ensures Flat(Lines(commands)) == Line(commands[0]) + Flat(Lines(commands[1..]))
  {
  }

  ghost predicate Framed(req: string, chunks: seq<string>, commands: seq<string>) {
    FeedAll(req, chunks) == ("", Lines(commands))
  }

  /** The next chunk leaves the first line unfinished, ends it, or overshoots it. */
  lemma {:induction false} ChunkInsideLine(req: string, chunks: seq<string>, commands: seq<string>)
    requires chunks != [] && commands != [] && IsCommand(commands[0])
    requires var r := req + chunks[0]; r <= Line(commands[0]) && r != Line(commands[0])
    ensures Framed(req, chunks, commands) <==> Framed(req + chunks[0], chunks[1..], commands)
  {
    var r := req + chunks[0];
    assert "" + r == r;
    PartOfALine(commands[0], r);
    var (left, more) := FeedAll(r, chunks[1..]);
    assert [] + more == more;
    assert FeedAll(req, chunks) == (left, more);
  }

  lemma {:induction false} ChunkEndsLine(req: string, chunks: seq<string>, commands: seq<string>)
    requires chunks != [] && commands != [] && IsCommand(commands[0])
    requires req + chunks[0] == Line(commands[0])
    ensures Framed(req, chunks, commands) <==> Framed("", chunks[1..], commands[1..])
  {
    var line, more := Line(commands[0]), FeedAll("", chunks[1..]);
    assert "" + line == line;
    PartOfALine(commands[0], line);
    assert FeedAll(req, chunks) == (more.0, [line] + more.1);
    LinesTail(commands);
    assert Lines(commands) == [line] + Lines(commands[1..]);
    assert more.1 == ([line] + more.1)[1..];
  }

  lemma {:induction false} ChunkOvershoots(req: string, chunks: seq<string>, commands: seq<string>)
    requires chunks != [] && commands != [] && |req + chunks[0]| > |Line(commands[0])|
    ensures !Framed(req, chunks, commands)
  {
    FirstCompletedIsLong(Feed(req, chunks[0]).0, chunks[1..]);
    LinesTail(commands);
  }

  /** Chunking independence: the framer completes each command exactly once, whole
      and in order, and keeps nothing, if and only if no chunk crosses the end of
      a command. */
  lemma {:induction false} FramedExactlyWhenNoChunkCrosses(req: string, chunks: seq<string>, commands: seq<string>)
    requires forall i :: 0 <= i < |chunks| ==> chunks[i] != ""
    requires forall i :: 0 <= i < |commands| ==> IsCommand(commands[i])
    requires Pending(req, commands) && req + Flat(chunks) == Flat(Lines(commands))
    ensures FeedAll(req, chunks) == ("", Lines(commands)) <==> NoChunkCrosses(req, chunks, commands)
    decreases |chunks|
  {
    if chunks == [] {
      assert req + "" == req;
      if commands != [] { LinesTail(commands); }
    } else {
      var r, rest := req + chunks[0], Flat(chunks[1..]);
      assert req + Flat(chunks) == r + rest;
      if commands == [] {
        assert false;
      } else {
        LinesTail(commands);
        var line, tail := Line(commands[0]), Flat(Lines(commands[1..]));
        assert r + rest == line + tail;
        if |r| <= |line| {
          assert r == (r + rest)[..|r|] == (line + tail)[..|r|] == line[..|r|];
        }
        if |r| < |line| {
          ChunkInsideLine(req, chunks, commands);
          FramedExactlyWhenNoChunkCrosses(r, chunks[1..], commands);
        } else if |r| == |line| {
          ChunkEndsLine(req, chunks, commands);
          assert rest == (r + rest)[|r|..] == (line + tail)[|r|..] == tail;
          assert "" + rest == rest;
          FramedExactlyWhenNoChunkCrosses("", chunks[1..], commands[1..]);
        } else {
          ChunkOvershoots(req, chunks, commands);
        }
      }
    }
  }

  /** Two commands in one chunk: one request is completed, with both in it. */
  lemma {:induction false} TwoCommandsInOneChunk()
    ensures IsCommand("a") && IsCommand("b") && Flat(["a\r\nb\r\n"]) == Flat(Lines(["a", "b"]))
    ensures FeedAll("", ["a\r\nb\r\n"]) == ("", ["a\r\nb\r\n"])
    ensures FeedAll("", ["a\r\nb\r\n"]) != ("", Lines(["a", "b"]))
    ensures !NoChunkCrosses("", ["a\r\nb\r\n"], ["a", "b"])
  {
    var chunk, chunks, commands := "a\r\nb\r\n", ["a\r\nb\r\n"], ["a", "b"];
    assert chunks[1..] == [] && "" + chunk == chunk;
    assert commands[1..] == ["b"] && ["b"][1..] == [];
    LinesTail(commands);
    LinesTail(["b"]);
    assert chunk == Line("a") + (Line("b") + "");
    assert |Line("a")| == 3;
    assert [chunk] + [] == [chunk];
    assert |Lines(commands)| == 2;
  }
}

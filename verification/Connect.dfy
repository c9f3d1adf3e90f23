/**
 * The first message to the signalling server, rendered from a template when the
 * websocket is established (src/websockets.cc:80-103, inc/bres+client_ext.h:10-31).
 */
module Connect {
  import opened Replace
  import opened Template
  import opened Wrappers

  const CHANNEL_ID := "WEBRTC_CHANNEL_ID"
  const TOKEN := "WEBRTC_TOKEN"
  const MULTISTREAM := "WEBRTC_MULTISTREAM"

  const AUDIO := "\"audio\":true,"
  const VIDEO := "\"video\":{\"codec_type\":\"VP8\","
  const RATE := "\"bit_rate\":1000}}"
  const TAIL := AUDIO + VIDEO + RATE

  /** Both templates: three tags between four literals. */
  function ThreeTags(a: string, b: string, c: string, d: string): seq<Piece> {
    [Text(a), Tag(CHANNEL_ID), Text(b), Tag(TOKEN), Text(c), Tag(MULTISTREAM), Text(d)]
  }

  const HEAD := "{\"type\":\"connect\",\"role\":\""
  const BEFORE_ID := "\",\"channel_id\":\""

  const ACCESS := "\",\"metadata\":{\"access_token\":\""
  const END := "\"},"
  const END_NO_STATS := "\",\"stats\":false},"

  const SUBSCRIBE := ThreeTags(HEAD + "recvonly" + BEFORE_ID, ACCESS, END, TAIL)
  const PUBLISH := ThreeTags(HEAD + "sendonly" + BEFORE_ID, ACCESS, END_NO_STATS, TAIL)

  datatype Role = Subscriber | Publisher

  function TemplateOf(role: Role): seq<Piece> {
    if role.Subscriber? then SUBSCRIBE else PUBLISH
  }

  function MultistreamText(setting: string): string {
    if setting == "on" then "\"multistream\":true," else ""
  }

  function Bindings(id: string, token: string, multistream: string): seq<Binding> {
    [Binding(CHANNEL_ID, id), Binding(TOKEN, token), Binding(MULTISTREAM, MultistreamText(multistream))]
  }

  /** The message with its three fields in place. */
  function Message(role: Role, id: string, token: string, multistream: string): string {
    var t := TemplateOf(role);
    t[0].text + id + t[2].text + token + t[4].text + MultistreamText(multistream) + t[6].text
  }

  datatype Event = Event(kind: string, text: string)

  class Instance {
    const role: Role
    var channelId: string
    var channelToken: string
    var channelMultipleStream: string
    var eventsWebrtcToWebsockets: seq<Event>

    constructor (role: Role, id: string, token: string, multistream: string)
      ensures this.role == role && channelId == id && channelToken == token && channelMultipleStream == multistream
      ensures eventsWebrtcToWebsockets == []
    {
      this.role, channelId, channelToken, channelMultipleStream := role, id, token, multistream;
      eventsWebrtcToWebsockets := [];
    }

    method Established()
      modifies this`eventsWebrtcToWebsockets
      ensures |eventsWebrtcToWebsockets| == |old(eventsWebrtcToWebsockets)| + 1
      ensures eventsWebrtcToWebsockets[..|old(eventsWebrtcToWebsockets)|] == old(eventsWebrtcToWebsockets)
      ensures eventsWebrtcToWebsockets[|old(eventsWebrtcToWebsockets)|]
        == Event("connect", Message(role,
             IdField(channelId, channelToken, channelMultipleStream),
             TokenField(channelToken, channelMultipleStream), channelMultipleStream))
      ensures !Has(channelId, TOKEN) && !Has(channelId, MULTISTREAM) && !Has(channelToken, MULTISTREAM) ==>
        eventsWebrtcToWebsockets[|old(eventsWebrtcToWebsockets)|]
          == Event("connect", Message(role, channelId, channelToken, channelMultipleStream))
    {
      var json := "";
      if role.Subscriber? {
        json := ReplaceAll(Render(SUBSCRIBE), Mark(CHANNEL_ID), channelId);
      } else {
        json := ReplaceAll(Render(PUBLISH), Mark(CHANNEL_ID), channelId);
      }
      json := ReplaceAll(json, Mark(TOKEN), channelToken);
      if channelMultipleStream == "on" {
        json := ReplaceAll(json, Mark(MULTISTREAM), "\"multistream\":true,");
      } else {
        json := ReplaceAll(json, Mark(MULTISTREAM), "");
      }
      RenderedIsMessage(role, channelId, channelToken, channelMultipleStream);
      eventsWebrtcToWebsockets := eventsWebrtcToWebsockets + [Event("connect", json)];
    }
  }

  /** The three calls of the program, nested. */
  function Rendered(role: Role, id: string, token: string, multistream: string): string {
    var withId := Replaced(Render(TemplateOf(role)), Mark(CHANNEL_ID), id);
    var withToken := Replaced(withId, Mark(TOKEN), token);
    Replaced(withToken, Mark(MULTISTREAM), MultistreamText(multistream))
  }

  /** What becomes of the channel id: the two later calls see it too. */
  function IdField(id: string, token: string, multistream: string): string {
    Replaced(Replaced(id, Mark(TOKEN), token), Mark(MULTISTREAM), MultistreamText(multistream))
  }

  function TokenField(token: string, multistream: string): string {
    Replaced(token, Mark(MULTISTREAM), MultistreamText(multistream))
  }

  // ---- The literals ----

  /** A literal that keeps apart what stands before it and behind it. */
  predicate Fence(s: string) {
    Plain(s) && s != "" && NotInMarks(s[0]) && NotInMarks(s[|s| - 1])
  }

  predicate NotInMarks(ch: char) {
    ch in ['{', '}', '"', ',']
  }

  lemma {:induction false} NotInMark(ch: char, name: string)
    requires NotInMarks(ch) && name in [CHANNEL_ID, TOKEN, MULTISTREAM]
    ensures ch !in Mark(name)
  {
    NamesAreApart();
    assert ch !in "$$";
    if ch in Mark(name) {
      assert ch in name;
      NotInNames(ch);
      assert false;
    }
  }

  lemma {:induction false} NotInNames(ch: char)
    requires NotInMarks(ch)
    ensures ch !in CHANNEL_ID && ch !in TOKEN && ch !in MULTISTREAM
  {
  }

  lemma {:induction false} NamesAreApart()
    ensures CHANNEL_ID != TOKEN && TOKEN != MULTISTREAM && CHANNEL_ID != MULTISTREAM
    ensures '"' !in CHANNEL_ID && '"' !in TOKEN && '"' !in MULTISTREAM
    ensures IsName(CHANNEL_ID) && IsName(TOKEN) && IsName(MULTISTREAM)
  {
    assert |CHANNEL_ID| == 17 && |TOKEN| == 12 && |MULTISTREAM| == 18;
  }

  lemma {:induction false} PlainByMembers(s: string)
    requires '$' !in s
    ensures Plain(s)
  {
  }

  lemma {:induction false} FenceFromParts(a: string, b: string)
    requires Plain(a) && Plain(b) && a != "" && b != "" && NotInMarks(a[0]) && NotInMarks(b[|b| - 1])
    ensures Fence(a + b)
  {
    assert (a + b)[0] == a[0] && (a + b)[|a + b| - 1] == b[|b| - 1];
  }

  lemma {:induction false} OpeningsAreFences()
    ensures Fence(HEAD + "recvonly" + BEFORE_ID) && Fence(HEAD + "sendonly" + BEFORE_ID)
  {
    PlainByMembers(HEAD);
    PlainByMembers(BEFORE_ID);
    PlainByMembers("recvonly");
    PlainByMembers("sendonly");
    assert HEAD[0] == '{' && BEFORE_ID[|BEFORE_ID| - 1] == '"';
    FenceFromParts(HEAD + "recvonly", BEFORE_ID);
    FenceFromParts(HEAD + "sendonly", BEFORE_ID);
  }

  lemma {:induction false} EndingsAreFences()
    ensures Fence(ACCESS) && Fence(END) && Fence(END_NO_STATS)
  {
    PlainByMembers(ACCESS);
    PlainByMembers(END);
    PlainByMembers(END_NO_STATS);
  }

  lemma {:induction false} TailIsFence()
    ensures Fence(TAIL)
  {
    PlainByMembers(AUDIO);
    PlainByMembers(VIDEO);
    PlainByMembers(RATE);
    assert AUDIO[0] == '"' && RATE[|RATE| - 1] == '}';
    FenceFromParts(AUDIO + VIDEO, RATE);
  }

  lemma {:induction false} Literals(role: Role) returns (a: string, b: string, c: string, d: string)
    ensures TemplateOf(role) == ThreeTags(a, b, c, d) && Fence(a) && Fence(b) && Fence(c) && Fence(d)
  {
    OpeningsAreFences();
    EndingsAreFences();
    TailIsFence();
    if role.Subscriber? {
      a, b, c, d := HEAD + "recvonly" + BEFORE_ID, ACCESS, END, TAIL;
    } else {
      a, b, c, d := HEAD + "sendonly" + BEFORE_ID, ACCESS, END_NO_STATS, TAIL;
    }
  }

  // ---- One call ----

  function Fields(a: string, x: string, b: string, y: string, c: string, z: string, d: string): string {
    a + (x + (b + (y + (c + (z + d)))))
  }

  lemma {:induction false} FieldThenFence(x: string, b: string, rest: string, name: string, value: string)
    requires Fence(b) && name in [CHANNEL_ID, TOKEN, MULTISTREAM]
    ensures Replaced(x + (b + rest), Mark(name), value) == Replaced(x, Mark(name), value) + (b + Replaced(rest, Mark(name), value))
  {
    NotInMark(b[0], name);
    NotInMark(b[|b| - 1], name);
    assert (b + rest)[0] == b[0];
    ReplacedApart(x, b + rest, Mark(name), value);
    ReplacedApart(b, rest, Mark(name), value);
    PlainIsKept(b, name, value);
  }

  lemma {:induction false} FenceIsKept(d: string, name: string, value: string)
    requires Fence(d)
    ensures Replaced("", Mark(name), value) == "" && Replaced(d + "", Mark(name), value) == d && d + "" == d
  {
    assert d + "" == d;
    PlainIsKept("", name, value);
    PlainIsKept(d, name, value);
  }

  /** A call acts on each field by itself and leaves the literals alone. */
  lemma {:induction false} CallActsOnFields(a: string, x: string, b: string, y: string, c: string, z: string, d: string, name: string, value: string)
    requires Fence(a) && Fence(b) && Fence(c) && Fence(d) && name in [CHANNEL_ID, TOKEN, MULTISTREAM]
    ensures Replaced(Fields(a, x, b, y, c, z, d), Mark(name), value)
      == Fields(a, Replaced(x, Mark(name), value), b, Replaced(y, Mark(name), value), c, Replaced(z, Mark(name), value), d)
  {
    var m := Mark(name);
    FenceIsKept(d, name, value);
    FieldThenFence(z, d, "", name, value);
    FieldThenFence(y, c, z + d, name, value);
    FieldThenFence(x, b, y + (c + (z + d)), name, value);
    var rest := x + (b + (y + (c + (z + d))));
    NotInMark(a[|a| - 1], name);
    ReplacedApart(a, rest, m, value);
    PlainIsKept(a, name, value);
  }

  lemma {:induction false} OwnMark(name: string, value: string)
    ensures Replaced(Mark(name), Mark(name), value) == value
  {
    assert "" + Mark(name) + "" == Mark(name);
    OwnTag("", "", name, value);
    PlainIsKept("", name, value);
    assert "" + value + "" == value;
  }

  lemma {:induction false} OtherMark(other: string, name: string, value: string)
    requires IsName(other) && IsName(name) && other != name
    ensures Replaced(Mark(other), Mark(name), value) == Mark(other)
  {
    assert "" + Mark(other) + "" == Mark(other);
    ForeignTagIsKept("", other, "", name, value);
    PlainIsKept("", name, value);
  }

  lemma {:induction false} RenderCons(p: Piece, rest: seq<Piece>)
    ensures Render([p] + rest) == (match p case Text(text) => text case Tag(name) => Mark(name)) + Render(rest)
  {
    assert ([p] + rest)[1..] == rest;
  }

  lemma {:induction false} TemplateIsFields(a: string, b: string, c: string, d: string)
    ensures Render(ThreeTags(a, b, c, d)) == Fields(a, Mark(CHANNEL_ID), b, Mark(TOKEN), c, Mark(MULTISTREAM), d)
  {
    var t6 := [Text(d)] + [];
    var t5 := [Tag(MULTISTREAM)] + t6;
    var t4 := [Text(c)] + t5;
    var t3 := [Tag(TOKEN)] + t4;
    var t2 := [Text(b)] + t3;
    var t1 := [Tag(CHANNEL_ID)] + t2;
    RenderCons(Text(d), []);
    RenderCons(Tag(MULTISTREAM), t6);
    RenderCons(Text(c), t5);
    RenderCons(Tag(TOKEN), t4);
    RenderCons(Text(b), t3);
    RenderCons(Tag(CHANNEL_ID), t2);
    RenderCons(Text(a), t1);
    assert ThreeTags(a, b, c, d) == [Text(a)] + t1;
    assert d + "" == d;
  }

  lemma {:induction false} FieldsInARow(a: string, x: string, b: string, y: string, c: string, z: string, d: string)
    ensures Fields(a, x, b, y, c, z, d) == a + x + b + y + c + z + d
  {
  }

  // ---- The program's order ----

  /** Whatever the values are, the message sent is the template with three fields in
      place: the id as the two later calls leave it, the token as the last call
      leaves it, and the multistream text. */
  lemma {:induction false} RenderedIsMessage(role: Role, id: string, token: string, multistream: string)
    ensures Rendered(role, id, token, multistream)
      == Message(role, IdField(id, token, multistream), TokenField(token, multistream), multistream)
  {
    var m := MultistreamText(multistream);
    var a, b, c, d := Literals(role);
    NamesAreApart();
    TemplateIsFields(a, b, c, d);
    CallActsOnFields(a, Mark(CHANNEL_ID), b, Mark(TOKEN), c, Mark(MULTISTREAM), d, CHANNEL_ID, id);
    OwnMark(CHANNEL_ID, id);
    OtherMark(TOKEN, CHANNEL_ID, id);
    OtherMark(MULTISTREAM, CHANNEL_ID, id);
    CallActsOnFields(a, id, b, Mark(TOKEN), c, Mark(MULTISTREAM), d, TOKEN, token);
    OwnMark(TOKEN, token);
    OtherMark(MULTISTREAM, TOKEN, token);
    var x := Replaced(id, Mark(TOKEN), token);
    CallActsOnFields(a, x, b, token, c, Mark(MULTISTREAM), d, MULTISTREAM, m);
    OwnMark(MULTISTREAM, m);
    FieldsInARow(a, IdField(id, token, multistream), b, TokenField(token, multistream), c, m, d);
  }

  predicate Has(s: string, name: string) {
    Find(s, Mark(name), 0).Some?
  }

  /** The token arrives unchanged if and only if it has no multistream tag in it. */
  lemma {:induction false} TokenArrivesExactlyWhen(token: string, multistream: string)
    ensures TokenField(token, multistream) == token <==> !Has(token, MULTISTREAM)
  {
    var m := MultistreamText(multistream);
    PlainByMembers(m);
    assert Mark(MULTISTREAM)[0] == '$';
    assert m != Mark(MULTISTREAM);
    KeptExactlyWithoutMatch(token, Mark(MULTISTREAM), m);
  }

  /** The message is the intended one when no value has a tag in it that is replaced
      after that value was filled in. */
  lemma {:induction false} NoLaterTagGivesMessage(role: Role, id: string, token: string, multistream: string)
    requires !Has(id, TOKEN) && !Has(id, MULTISTREAM) && !Has(token, MULTISTREAM)
    ensures Rendered(role, id, token, multistream) == Message(role, id, token, multistream)
  {
    RenderedIsMessage(role, id, token, multistream);
  }

  /** With the token's tag as channel id the token is sent twice. */
  lemma {:induction false} TokenTagAsChannelId(role: Role, token: string, multistream: string)
    requires Plain(token)
    ensures Rendered(role, Mark(TOKEN), token, multistream) == Message(role, token, token, multistream)
    ensures Rendered(role, Mark(TOKEN), token, multistream) != Message(role, Mark(TOKEN), token, multistream)
  {
    RenderedIsMessage(role, Mark(TOKEN), token, multistream);
    OwnMark(TOKEN, token);
    PlainIsKept(token, MULTISTREAM, MultistreamText(multistream));
    DifferentIds(role, token, Mark(TOKEN), token, multistream);
    assert Mark(TOKEN)[0] == '$';
  }

  lemma {:induction false} DifferentIds(role: Role, id: string, id': string, token: string, multistream: string)
    ensures Message(role, id, token, multistream) == Message(role, id', token, multistream) <==> id == id'
  {
    var a, b, c, d := Literals(role);
    var m := MultistreamText(multistream);
    FieldsInARow(a, id, b, token, c, m, d);
    FieldsInARow(a, id', b, token, c, m, d);
    SameAround(a, id, id', b + (token + (c + (m + d))));
  }

  lemma {:induction false} SameAround(a: string, x: string, y: string, b: string)
    ensures a + (x + b) == a + (y + b) <==> x == y
  {
    assert (a + (x + b))[|a|..] == x + b && (a + (y + b))[|a|..] == y + b;
    if |x| == |y| { assert (x + b)[..|x|] == x && (y + b)[..|y|] == y; }
  }

  // ---- The message, spelled out ----

  /** The role is recvonly for a subscriber and sendonly for a publisher, who alone
      turns statistics off; the multistream field is there exactly for "on". */
  lemma {:induction false} MessageSpelledOut(role: Role, id: string, token: string, multistream: string)
    ensures Message(role, id, token, multistream)
      == "{\"type\":\"connect\",\"role\":\"" + (if role.Subscriber? then "recvonly" else "sendonly") + "\",\"channel_id\":\""
         + id + "\",\"metadata\":{\"access_token\":\"" + token
         + (if role.Subscriber? then "\"}," else "\",\"stats\":false},")
         + (if multistream == "on" then "\"multistream\":true," else "")
         + ("\"audio\":true," + "\"video\":{\"codec_type\":\"VP8\"," + "\"bit_rate\":1000}}")
  {
  }

  lemma {:induction false} IdTagSpelledOut()
    ensures Mark(CHANNEL_ID) == "$$WEBRTC_CHANNEL_ID$$"
  {
  }

  lemma {:induction false} TokenTagSpelledOut()
    ensures Mark(TOKEN) == "$$WEBRTC_TOKEN$$"
  {
  }

  lemma {:induction false} MultistreamTagSpelledOut()
    ensures Mark(MULTISTREAM) == "$$WEBRTC_MULTISTREAM$$"
  {
  }

  // ---- Any order ----

  /** The text when some of the three calls have been made. */
  function Stage(a: string, b: string, c: string, d: string, vs: seq<Binding>, done: seq<bool>): string
    requires |vs| == |done| == 3
  {
    Fields(a, Field(vs[0], done[0]), b, Field(vs[1], done[1]), c, Field(vs[2], done[2]), d)
  }

  function Field(v: Binding, isDone: bool): string {
    if isDone then v.value else Mark(v.name)
  }

  /** No value has another one's tag in it. */
  ghost predicate NoForeignTags(vs: seq<Binding>) {
    forall i, j :: 0 <= i < |vs| && 0 <= j < |vs| && i != j ==> !Has(vs[i].value, vs[j].name)
  }

  ghost predicate ThreeFields(vs: seq<Binding>) {
    |vs| == 3 && vs[0].name == CHANNEL_ID && vs[1].name == TOKEN && vs[2].name == MULTISTREAM
  }

  lemma {:induction false} CallOnField(vs: seq<Binding>, isDone: bool, i: nat, k: nat)
    requires ThreeFields(vs) && NoForeignTags(vs) && i < 3 && k < 3 && (i == k ==> !isDone)
    ensures Replaced(Field(vs[i], isDone), Mark(vs[k].name), vs[k].value) == Field(vs[i], isDone || i == k)
  {
    NamesAreApart();
    if i == k {
      OwnMark(vs[k].name, vs[k].value);
    } else if !isDone {
      OtherMark(vs[i].name, vs[k].name, vs[k].value);
    } else {
      assert !Has(vs[i].value, vs[k].name);
    }
  }

  lemma {:induction false} NextStage(a: string, b: string, c: string, d: string, vs: seq<Binding>, done: seq<bool>, k: nat)
    requires Fence(a) && Fence(b) && Fence(c) && Fence(d) && ThreeFields(vs) && NoForeignTags(vs)
    requires |done| == 3 && k < 3 && !done[k]
    ensures Replaced(Stage(a, b, c, d, vs, done), Mark(vs[k].name), vs[k].value) == Stage(a, b, c, d, vs, done[k := true])
  {
    CallActsOnFields(a, Field(vs[0], done[0]), b, Field(vs[1], done[1]), c, Field(vs[2], done[2]), d, vs[k].name, vs[k].value);
    CallOnField(vs, done[0], 0, k);
    CallOnField(vs, done[1], 1, k);
    CallOnField(vs, done[2], 2, k);
  }

  /** The calls still to be made, each once. */
  ghost predicate Remaining(vs: seq<Binding>, done: seq<bool>, bs: seq<Binding>)
    requires |vs| == |done| == 3
  {
    && DistinctNames(bs)
    && (forall b :: b in bs ==> exists k :: 0 <= k < 3 && b == vs[k] && !done[k])
    && (forall k :: 0 <= k < 3 && !done[k] ==> vs[k] in bs)
  }

  lemma {:induction false} RemainingAfter(vs: seq<Binding>, done: seq<bool>, bs: seq<Binding>, k: nat)
    requires ThreeFields(vs) && |done| == 3 && bs != [] && Remaining(vs, done, bs) && k < 3 && bs[0] == vs[k]
    ensures Remaining(vs, done[k := true], bs[1..])
  {
    NamesAreApart();
    forall i, j | 0 <= i < j < |bs[1..]| ensures bs[1..][i].name != bs[1..][j].name {
      assert bs[1..][i] == bs[i + 1] && bs[1..][j] == bs[j + 1];
    }
    forall b | b in bs[1..] ensures exists j :: 0 <= j < 3 && b == vs[j] && !done[k := true][j] {
      var i :| 0 <= i < |bs[1..]| && bs[1..][i] == b;
      assert bs[i + 1] == b && b in bs && b.name != bs[0].name;
      var j :| 0 <= j < 3 && b == vs[j] && !done[j];
    }
    forall j | 0 <= j < 3 && !done[k := true][j] ensures vs[j] in bs[1..] {
      assert j != k && !done[j];
      assert vs[j] in bs && vs[j].name != vs[k].name;
      var i :| 0 <= i < |bs| && bs[i] == vs[j];
      assert bs[1..][i - 1] == vs[j];
    }
  }

  lemma {:induction false} RemainingCalls(a: string, b: string, c: string, d: string, vs: seq<Binding>, done: seq<bool>, bs: seq<Binding>)
    requires Fence(a) && Fence(b) && Fence(c) && Fence(d) && ThreeFields(vs) && NoForeignTags(vs)
    requires |done| == 3 && Remaining(vs, done, bs)
    ensures ReplacedChain(Stage(a, b, c, d, vs, done), bs) == Stage(a, b, c, d, vs, [true, true, true])
    decreases |bs|
  {
    if bs == [] {
      assert done == [true, true, true];
    } else {
      assert bs[0] in bs;
      var k :| 0 <= k < 3 && bs[0] == vs[k] && !done[k];
      NextStage(a, b, c, d, vs, done, k);
      RemainingAfter(vs, done, bs, k);
      RemainingCalls(a, b, c, d, vs, done[k := true], bs[1..]);
    }
  }

  lemma {:induction false} ThreeRemain(vs: seq<Binding>, bs: seq<Binding>)
    requires |vs| == 3 && multiset(bs) == multiset(vs) && DistinctNames(bs)
    ensures Remaining(vs, [false, false, false], bs)
  {
    forall b | b in bs ensures exists k :: 0 <= k < 3 && b == vs[k] && ![false, false, false][k] {
      assert b in multiset(bs);
      assert b in multiset(vs);
      var k :| 0 <= k < 3 && b == vs[k];
      assert ![false, false, false][k];
    }
    forall k | 0 <= k < 3 ensures vs[k] in bs {
      assert vs[k] in multiset(vs);
      assert vs[k] in multiset(bs);
    }
  }

  lemma {:induction false} ValuesHaveNoForeignTags(id: string, token: string, multistream: string)
    requires !Has(id, TOKEN) && !Has(id, MULTISTREAM) && !Has(token, CHANNEL_ID) && !Has(token, MULTISTREAM)
    ensures NoForeignTags(Bindings(id, token, multistream))
  {
    var m := MultistreamText(multistream);
    PlainByMembers(m);
    PlainHasNoTag(m, CHANNEL_ID);
    PlainHasNoTag(m, TOKEN);
  }

  /** When no value has another field's tag in it, the message is the template with
      its fields in place, whichever order they are replaced in. */
  lemma {:induction false} ConnectFillsItsFields(role: Role, id: string, token: string, multistream: string, bs: seq<Binding>)
    requires !Has(id, TOKEN) && !Has(id, MULTISTREAM) && !Has(token, CHANNEL_ID) && !Has(token, MULTISTREAM)
    requires multiset(bs) == multiset(Bindings(id, token, multistream)) && DistinctNames(bs)
    ensures ReplacedChain(Render(TemplateOf(role)), bs) == Message(role, id, token, multistream)
  {
    var vs, none := Bindings(id, token, multistream), [false, false, false];
    var a, b, c, d := Literals(role);
    TemplateIsFields(a, b, c, d);
    ValuesHaveNoForeignTags(id, token, multistream);
    ThreeRemain(vs, bs);
    RemainingCalls(a, b, c, d, vs, none, bs);
    FirstStage(a, b, c, d, vs);
    LastStage(role, a, b, c, d, id, token, multistream);
  }

  lemma {:induction false} FirstStage(a: string, b: string, c: string, d: string, vs: seq<Binding>)
    requires ThreeFields(vs)
    ensures Stage(a, b, c, d, vs, [false, false, false]) == Fields(a, Mark(CHANNEL_ID), b, Mark(TOKEN), c, Mark(MULTISTREAM), d)
  {
  }

  lemma {:induction false} LastStage(role: Role, a: string, b: string, c: string, d: string, id: string, token: string, multistream: string)
    requires TemplateOf(role) == ThreeTags(a, b, c, d)
    ensures Stage(a, b, c, d, Bindings(id, token, multistream), [true, true, true]) == Message(role, id, token, multistream)
  {
    FieldsInARow(a, id, b, token, c, MultistreamText(multistream), d);
  }

  /** Values without dollar signs are no trouble. */
  lemma {:induction false} PlainHasNoTag(s: string, name: string)
    requires Plain(s)
    ensures !Has(s, name)
  {
    FindIsLeftmost(s, Mark(name), 0);
    assert Mark(name)[0] == '$';
  }

  // ---- The templates as such ----

  lemma {:induction false} ThreeTagsGuarded(a: string, b: string, c: string, d: string)
    requires '"' in b && '"' in c
    requires '"' !in CHANNEL_ID && '"' !in TOKEN && '"' !in MULTISTREAM
    ensures Guarded(ThreeTags(a, b, c, d), '"')
  {
    var t := ThreeTags(a, b, c, d);
    var t1, t2, t3, t4, t5, t6 := t[1..], t[2..], t[3..], t[4..], t[5..], t[6..];
    assert t6[1..] == [] && t5[1..] == t6 && t4[1..] == t5 && t3[1..] == t4 && t2[1..] == t3 && t1[1..] == t2 && t[1..] == t1;
    assert Guarded(t5, '"') by { assert !HasTag(t6) by { assert !HasTag([]); } }
    assert Leading(t4) == c + Leading(t5) == c;
    assert Guarded(t3, '"');
    assert Leading(t2) == b + Leading(t3) == b;
    assert Guarded(t1, '"');
  }

  /** Both templates have a quote between any two tags, so no plain value can make a
      literal that is taken for a tag. */
  lemma {:induction false} TemplatesAreGuarded(role: Role)
    ensures Guarded(TemplateOf(role), '"')
  {
    NamesAreApart();
    assert ACCESS[0] == END[0] == END_NO_STATS[0] == '"';
    if role.Subscriber? {
      ThreeTagsGuarded(HEAD + "recvonly" + BEFORE_ID, ACCESS, END, TAIL);
    } else {
      ThreeTagsGuarded(HEAD + "sendonly" + BEFORE_ID, ACCESS, END_NO_STATS, TAIL);
    }
  }
}

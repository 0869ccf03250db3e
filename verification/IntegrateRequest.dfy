/** The squash confirmation: what `parseIntegrate` accepts, and the size of every accepted request. */
module IntegrateRequest {
  import opened Options
  import opened CodeUnits
  import opened JsonBytes
  import opened SquashMessage

  const MAX_IDENTIFIER := 200

  /** A parsed JSON body: only objects have fields; numbers, arrays and null are all one to these parsers. */
  datatype Value = Text(s: Source) | Flag(b: bool) | OtherValue
  datatype Body = Fields(fields: map<string, Value>) | NotAnObject

  datatype Request = Request(projectId: Source, worktreeId: Source, through: Option<Source>, acknowledgeActivity: bool,
                             requestId: Source, consent: Source, message: Source)
  datatype Refusal = InvalidBody | UnknownField | ConfirmRequired | MissingConsent | InvalidText | ForeignIdentifier
                   | InvalidSha | InvalidAcknowledgement | InvalidId | InvalidMessage | MessageTooLong

  predicate Control(u: Unit) {
    u < 0x20 || u == 0x7F
  }

  predicate LowerHex(u: Unit) {
    0x30 <= u <= 0x39 || 0x61 <= u <= 0x66
  }

  predicate AnyHex(u: Unit) {
    LowerHex(u) || 0x41 <= u <= 0x46
  }

  /** A nonempty single-line value. */
  predicate SingleLine(s: Source) {
    s != [] && |s| <= 4096 && forall i | 0 <= i < |s| :: !Control(s[i])
  }

  predicate Sha(s: Source) {
    (|s| == 40 || |s| == 64) && forall i | 0 <= i < |s| :: LowerHex(s[i])
  }

  predicate Digest(s: Source) {
    |s| == 64 && forall i | 0 <= i < |s| :: LowerHex(s[i])
  }

  /** A version 4 UUID, in either case. */
  predicate Uuid(s: Source) {
    |s| == 36
    && (forall i | 0 <= i < 36 :: if i in {8, 13, 18, 23} then s[i] == 45 else AnyHex(s[i]))
    && s[14] == 0x34 && s[19] in {0x38, 0x39, 0x61, 0x62, 0x41, 0x42}
  }

  /** Printable, with tabs and line feeds, and not only whitespace. */
  predicate Printable(s: Source) {
    (exists i | 0 <= i < |s| :: !White(s[i]))
    && forall i | 0 <= i < |s| :: !Control(s[i]) || s[i] == TAB || s[i] == LF
  }

  function Get(fields: map<string, Value>, name: string): Option<Value> {
    if name in fields then Some(fields[name]) else None
  }

  predicate TextWith(v: Option<Value>, ok: Source -> bool) {
    v.Some? && v.value.Text? && ok(v.value.s)
  }

  const ALLOWED: set<string> := {"projectId", "worktreeId", "through", "acknowledgeActivity", "requestId", "consent", "message", "confirm"}

  function ParseIntegrate(body: Body): Result<Request, Refusal> {
    if body.NotAnObject? then Err(InvalidBody) else
      var f := body.fields;
      var through, acknowledge := Get(f, "through"), Get(f, "acknowledgeActivity");
      if !(f.Keys <= ALLOWED) then Err(UnknownField)
      else if Get(f, "confirm") != Some(Flag(true)) then Err(ConfirmRequired)
      else if !TextWith(Get(f, "consent"), Digest) then Err(MissingConsent)
      else if !TextWith(Get(f, "projectId"), SingleLine) || !TextWith(Get(f, "worktreeId"), SingleLine) then Err(InvalidText)
      else if |f["projectId"].s| > MAX_IDENTIFIER || |f["worktreeId"].s| > MAX_IDENTIFIER then Err(ForeignIdentifier)
      else if through.Some? && !TextWith(through, Sha) then Err(InvalidSha)
      else if acknowledge.Some? && acknowledge != Some(Flag(true)) then Err(InvalidAcknowledgement)
      else if !TextWith(Get(f, "requestId"), Uuid) then Err(InvalidId)
      else if !TextWith(Get(f, "message"), Printable) then Err(InvalidMessage)
      else if !MessageFits(f["message"].s) then Err(MessageTooLong)
      else Ok(Request(f["projectId"].s, f["worktreeId"].s, if through.Some? then Some(through.value.s) else None,
                      acknowledge.Some?, f["requestId"].s, f["consent"].s, f["message"].s))
  }

  /** A request that may be confirmed. */
  ghost predicate WellFormed(r: Request) {
    && Identifier(r.projectId) && Identifier(r.worktreeId) && (r.through.Some? ==> Sha(r.through.value)) && Uuid(r.requestId)
    && |r.consent| == 64 && (forall i | 0 <= i < 64 :: LowerHex(r.consent[i]))
    && Printable(r.message) && Cost(r.message) + 2 <= 8192
  }

  predicate Identifier(s: Source) {
    0 < |s| <= 200 && forall i | 0 <= i < |s| :: !Control(s[i])
  }

  /** The one body that asks for it. */
  function BodyOf(r: Request): Body {
    var required := map["projectId" := Text(r.projectId), "worktreeId" := Text(r.worktreeId), "requestId" := Text(r.requestId),
                        "consent" := Text(r.consent), "message" := Text(r.message), "confirm" := Flag(true)];
    var through := if r.through.Some? then required["through" := Text(r.through.value)] else required;
    Fields(if r.acknowledgeActivity then through["acknowledgeActivity" := Flag(true)] else through)
  }

  lemma WellFormedIsAccepted(r: Request)
    requires WellFormed(r)
    ensures ParseIntegrate(BodyOf(r)) == Ok(r)
  {
    JsonBytesAreCost(r.message);
  }

  lemma AcceptedIsWellFormed(body: Body, r: Request)
    requires ParseIntegrate(body) == Ok(r)
    ensures WellFormed(r)
  {
    JsonBytesAreCost(r.message);
  }

  lemma AcceptedSpellsRequest(body: Body, r: Request)
    requires ParseIntegrate(body) == Ok(r)
    ensures body == BodyOf(r)
  {
    var f, g := body.fields, BodyOf(r).fields;
    assert f.Keys <= ALLOWED && g.Keys <= ALLOWED;
    forall name | name in ALLOWED
      ensures name in f <==> name in g
      ensures name in f ==> f[name] == g[name]
    {
    }
    assert f == g;
  }

  /** A request is accepted if and only if it is well formed and the body spells it, field for field. */
  lemma AcceptedExactly(body: Body, r: Request)
    ensures ParseIntegrate(body) == Ok(r) <==> WellFormed(r) && body == BodyOf(r)
  {
    if ParseIntegrate(body) == Ok(r) {
      AcceptedIsWellFormed(body, r);
      AcceptedSpellsRequest(body, r);
    }
    if WellFormed(r) {
      WellFormedIsAccepted(r);
    }
  }

  // ---- The request as compact JSON ----

  datatype Member = Member(name: Source, value: Source)

  function Identifiers(r: Request): seq<Member> {
    [Member(Units("projectId"), Stringify(r.projectId)), Member(Units("worktreeId"), Stringify(r.worktreeId))]
  }

  function Through(r: Request): seq<Member> {
    if r.through.Some? then [Member(Units("through"), Stringify(r.through.value))] else []
  }

  function Acknowledgement(r: Request): seq<Member> {
    if r.acknowledgeActivity then [Member(Units("acknowledgeActivity"), Units("true"))] else []
  }

  function Confirmation(r: Request): seq<Member> {
    [Member(Units("requestId"), Stringify(r.requestId)), Member(Units("consent"), Stringify(r.consent)),
     Member(Units("message"), Stringify(r.message)), Member(Units("confirm"), Units("true"))]
  }

  function Members(r: Request): seq<Member> {
    Identifiers(r) + Through(r) + Acknowledgement(r) + Confirmation(r)
  }

  function MembersText(members: seq<Member>): Source {
    if members == [] then [] else
      Stringify(members[0].name) + ([58] + (members[0].value + ((if |members| > 1 then [COMMA] else []) + MembersText(members[1..]))))
  }

  function Serialize(r: Request): Source {
    [LEFT_CURLY] + (MembersText(Members(r)) + [RIGHT_CURLY])
  }

  // ---- Its size ----

  /** A text whose encoded size adds to that of whatever follows. */
  ghost predicate Sized(s: Source, size: nat) {
    forall rest :: |Utf8(s + rest)| == size + |Utf8(rest)|
  }

  lemma AsciiSized(s: Source)
    requires Ascii(s)
    ensures Sized(s, |s|)
  {
    forall rest ensures |Utf8(s + rest)| == |s| + |Utf8(rest)| {
      Utf8OfAscii(s, rest);
    }
  }

  lemma StringSized(s: Source)
    ensures Sized(Stringify(s), Cost(s) + 2)
  {
    forall rest ensures |Utf8(Stringify(s) + rest)| == Cost(s) + 2 + |Utf8(rest)| {
      StringifiedSize(s, rest);
    }
  }

  lemma SizedConcat(a: Source, m: nat, b: Source, n: nat)
    requires Sized(a, m) && Sized(b, n)
    ensures Sized(a + b, m + n)
  {
    forall rest ensures |Utf8(a + b + rest)| == m + n + |Utf8(rest)| {
      assert a + b + rest == a + (b + rest);
    }
  }

  lemma SizedAlone(s: Source, n: nat)
    requires Sized(s, n)
    ensures |Utf8(s)| == n
  {
    assert s + [] == s;
    assert |Utf8(s + [])| == n + |Utf8([])|;
  }

  /** Sizes of the members' values, and room for their names and punctuation. */
  ghost predicate ValuesSized(members: seq<Member>, sizes: seq<nat>) {
    |members| == |sizes|
    && forall i | 0 <= i < |members| :: Sized(members[i].value, sizes[i]) && Ascii(members[i].name) && |members[i].name| <= 19
  }

  function Sum(sizes: seq<nat>): nat {
    if sizes == [] then 0 else sizes[0] + Sum(sizes[1..])
  }

  lemma MemberSized(m: Member, size: nat, last: bool, rest: Source, tail: nat) returns (total: nat)
    requires Sized(m.value, size) && Ascii(m.name) && |m.name| <= 19 && Sized(rest, tail)
    ensures Sized(Stringify(m.name) + ([58] + (m.value + ((if last then [] else [COMMA]) + rest))), total)
    ensures total <= size + tail + 118
  {
    var comma: Source := if last then [] else [COMMA];
    CostBounds(m.name);
    StringSized(m.name);
    AsciiSized(comma);
    AsciiSized([58]);
    SizedConcat(comma, |comma|, rest, tail);
    SizedConcat(m.value, size, comma + rest, |comma| + tail);
    SizedConcat([58], 1, m.value + (comma + rest), size + (|comma| + tail));
    SizedConcat(Stringify(m.name), Cost(m.name) + 2, [58] + (m.value + (comma + rest)), 1 + (size + (|comma| + tail)));
    total := Cost(m.name) + 2 + (1 + (size + (|comma| + tail)));
  }

  lemma {:induction false} MembersSized(members: seq<Member>, sizes: seq<nat>) returns (total: nat)
    requires ValuesSized(members, sizes)
    ensures Sized(MembersText(members), total) && total <= Sum(sizes) + 118 * |members|
  {
    if members == [] {
      AsciiSized([]);
      return 0;
    }
    var tail := MembersSized(members[1..], sizes[1..]);
    total := MemberSized(members[0], sizes[0], |members| <= 1, MembersText(members[1..]), tail);
  }

  predicate Bounded(r: Request) {
    |r.projectId| <= MAX_IDENTIFIER && |r.worktreeId| <= MAX_IDENTIFIER && (r.through.Some? ==> |r.through.value| <= 64)
    && |r.requestId| == 36 && |r.consent| == 64 && MessageFits(r.message)
  }

  lemma AcceptedIsBounded(body: Body)
    requires ParseIntegrate(body).Ok?
    ensures Bounded(ParseIntegrate(body).value)
  {
  }

  /** Members whose values take at most that many bytes altogether. */
  ghost predicate Within(members: seq<Member>, bound: nat) {
    exists sizes :: ValuesSized(members, sizes) && Sum(sizes) <= bound
  }

  lemma {:induction false} SumConcat(a: seq<nat>, b: seq<nat>)
    ensures Sum(a + b) == Sum(a) + Sum(b)
  {
    if a == [] {
      assert a + b == b;
    } else {
      SumConcat(a[1..], b);
      assert (a + b)[1..] == a[1..] + b;
    }
  }

  lemma NothingWithin()
    ensures Within([], 0)
  {
    assert ValuesSized([], []) && Sum([]) == 0;
  }

  lemma OneWithin(m: Member, size: nat, bound: nat)
    requires Sized(m.value, size) && size <= bound && Ascii(m.name) && |m.name| <= 19
    ensures Within([m], bound)
  {
    assert ValuesSized([m], [size]) && Sum([size]) == size;
  }

  lemma BothWithin(a: seq<Member>, m: nat, b: seq<Member>, n: nat)
    requires Within(a, m) && Within(b, n)
    ensures Within(a + b, m + n)
  {
    var s :| ValuesSized(a, s) && Sum(s) <= m;
    var t :| ValuesSized(b, t) && Sum(t) <= n;
    SumConcat(s, t);
    assert ValuesSized(a + b, s + t);
  }

  lemma TextWithin(name: Source, s: Source, bound: nat)
    requires Ascii(name) && |name| <= 19 && Cost(s) + 2 <= bound
    ensures Within([Member(name, Stringify(s))], bound)
  {
    StringSized(s);
    OneWithin(Member(name, Stringify(s)), Cost(s) + 2, bound);
  }

  lemma TrueWithin(name: Source)
    requires Ascii(name) && |name| <= 19
    ensures Within([Member(name, Units("true"))], 4)
  {
    AsciiSized(Units("true"));
    OneWithin(Member(name, Units("true")), 4, 4);
  }

  lemma IdentifiersWithin(r: Request)
    requires Bounded(r)
    ensures Within(Identifiers(r), 2404)
  {
    CostBounds(r.projectId);
    CostBounds(r.worktreeId);
    TextWithin(Units("projectId"), r.projectId, 1202);
    TextWithin(Units("worktreeId"), r.worktreeId, 1202);
    BothWithin(Identifiers(r)[..1], 1202, Identifiers(r)[1..], 1202);
    assert Identifiers(r)[..1] + Identifiers(r)[1..] == Identifiers(r);
  }

  lemma OptionsWithin(r: Request)
    requires Bounded(r)
    ensures Within(Through(r), 386) && Within(Acknowledgement(r), 4)
  {
    NothingWithin();
    if r.through.Some? {
      CostBounds(r.through.value);
      TextWithin(Units("through"), r.through.value, 386);
    }
    TrueWithin(Units("acknowledgeActivity"));
  }

  lemma ConfirmationWithin(r: Request)
    requires Bounded(r)
    ensures Within(Confirmation(r), 218 + 386 + 8192 + 4)
  {
    CostBounds(r.requestId);
    CostBounds(r.consent);
    JsonBytesAreCost(r.message);
    TextWithin(Units("requestId"), r.requestId, 218);
    TextWithin(Units("consent"), r.consent, 386);
    TextWithin(Units("message"), r.message, 8192);
    TrueWithin(Units("confirm"));
    var c := Confirmation(r);
    BothWithin([c[0]], 218, [c[1]], 386);
    BothWithin([c[0]] + [c[1]], 218 + 386, [c[2]], 8192);
    BothWithin([c[0]] + [c[1]] + [c[2]], 218 + 386 + 8192, [c[3]], 4);
    assert [c[0]] + [c[1]] + [c[2]] + [c[3]] == c;
  }

  lemma MembersWithin(r: Request)
    requires Bounded(r)
    ensures Within(Members(r), 2404 + 386 + 4 + (218 + 386 + 8192 + 4)) && |Members(r)| <= 8
  {
    IdentifiersWithin(r);
    OptionsWithin(r);
    ConfirmationWithin(r);
    BothWithin(Identifiers(r), 2404, Through(r), 386);
    BothWithin(Identifiers(r) + Through(r), 2404 + 386, Acknowledgement(r), 4);
    BothWithin(Identifiers(r) + Through(r) + Acknowledgement(r), 2404 + 386 + 4, Confirmation(r), 218 + 386 + 8192 + 4);
  }

  /** Every accepted request, as compact JSON, is smaller than the request limit. */
  lemma AcceptedRequestsFit(body: Body)
    requires ParseIntegrate(body).Ok?
    ensures |Utf8(Serialize(ParseIntegrate(body).value))| < 16384
  {
    var r := ParseIntegrate(body).value;
    AcceptedIsBounded(body);
    MembersWithin(r);
    var sizes :| ValuesSized(Members(r), sizes) && Sum(sizes) <= 2404 + 386 + 4 + (218 + 386 + 8192 + 4);
    var total := MembersSized(Members(r), sizes);
    EnclosedSize(MembersText(Members(r)), total);
  }

  lemma EnclosedSize(inner: Source, total: nat)
    requires Sized(inner, total)
    ensures |Utf8([LEFT_CURLY] + (inner + [RIGHT_CURLY]))| == total + 2
  {
    AsciiSized([LEFT_CURLY]);
    AsciiSized([RIGHT_CURLY]);
    SizedConcat(inner, total, [RIGHT_CURLY], 1);
    SizedConcat([LEFT_CURLY], 1, inner + [RIGHT_CURLY], total + 1);
    SizedAlone([LEFT_CURLY] + (inner + [RIGHT_CURLY]), 1 + (total + 1));
  }
}

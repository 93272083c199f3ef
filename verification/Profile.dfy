/** Behaviour profiles: what a fake service says back. */
module Profile {
  import opened Bytes
  import opened Wrappers
  import opened HexText
  import opened Dns

  /** A response, flattened into bytes when the profile is loaded. */
  datatype Action = Action(payload: seq<byte>, echo: bool, close: bool, dns: Option<Answer>) {
    predicate IsSilent() {
      payload == [] && !echo && dns == None
    }
  }

  /** Every field that is present must hold. */
  datatype Match = Match(
    any: Option<bool>,
    startsWith: Option<seq<byte>>,
    contains: Option<seq<byte>>,
    endsWith: Option<seq<byte>>,
    prefixHex: Option<AsciiText>,
    containsHex: Option<AsciiText>,
    minLen: Option<nat>,
    maxLen: Option<nat>,
    len: Option<nat>,
    firstOnly: Option<bool>,
    ignoreCase: bool)

  datatype Rule = Rule(name: string, matcher: Match, action: Action)

  datatype Compiled = Compiled(onConnect: Option<Action>, rules: seq<Rule>)

  /** The first place needle occurs in hay; an empty needle is never found. */
  function Find(hay: seq<byte>, needle: seq<byte>): (at: Option<nat>)
    ensures at.Some? ==> at.value + |needle| <= |hay| && hay[at.value..at.value + |needle|] == needle
  {
    if needle == [] || |needle| > |hay| then None
    else if hay[..|needle|] == needle then Some(0)
    else
      var i :- Find(hay[1..], needle);
      Some(i + 1)
  }

  function Lower(b: byte): byte {
    if 65 <= b <= 90 then b + 32 else b
  }

  function Lowercase(d: seq<byte>): (r: seq<byte>)
    ensures |r| == |d|
  {
    seq(|d|, i requires 0 <= i < |d| => Lower(d[i]))
  }

  function Fold(m: Match, d: seq<byte>): seq<byte> {
    if m.ignoreCase then Lowercase(d) else d
  }

  predicate EndsWith(d: seq<byte>, suffix: seq<byte>) {
    |suffix| <= |d| && d[|d| - |suffix|..] == suffix
  }

  predicate Matches(m: Match, data: seq<byte>, first: bool) {
    var hay := Fold(m, data);
    if m.any == Some(false) then false
    else if m.firstOnly == Some(true) && !first then false
    else if m.len.Some? && |data| != m.len.value then false
    else if m.minLen.Some? && |data| < m.minLen.value then false
    else if m.maxLen.Some? && |data| > m.maxLen.value then false
    else if m.startsWith.Some? && !(Fold(m, m.startsWith.value) <= hay) then false
    else if m.endsWith.Some? && !EndsWith(hay, Fold(m, m.endsWith.value)) then false
    else if m.contains.Some? && Find(hay, Fold(m, m.contains.value)) == None then false
    else if m.prefixHex.Some? && !HexPrefix(data, m.prefixHex.value) then false
    else if m.containsHex.Some? && !HexContained(data, m.containsHex.value) then false
    else true
  }

  predicate HexPrefix(data: seq<byte>, hex: AsciiText) {
    match ParseHex(hex)
    case Some(needle) => needle <= data
    case None => false
  }

  predicate HexContained(data: seq<byte>, hex: AsciiText) {
    match ParseHex(hex)
    case Some(needle) => Find(data, needle).Some?
    case None => false
  }

  predicate Responds(c: Compiled) {
    (c.onConnect.Some? && !c.onConnect.value.IsSilent()) || exists i :: 0 <= i < |c.rules| && !c.rules[i].action.IsSilent()
  }

  predicate Reflects(a: Action) {
    a.echo || a.dns.Some?
  }

  function LongestPayload(rules: seq<Rule>): nat {
    if rules == [] then 0
    else
      var rest := LongestPayload(rules[1..]);
      if |rules[0].action.payload| > rest then |rules[0].action.payload| else rest
  }

  function BannerLength(c: Compiled): nat {
    if c.onConnect.Some? then |c.onConnect.value.payload| else 0
  }

  /** The most one datagram can draw; None when a response depends on what was received. */
  function MaxResponseBytes(c: Compiled): Option<nat> {
    if (c.onConnect.Some? && Reflects(c.onConnect.value))
       || exists i :: 0 <= i < |c.rules| && Reflects(c.rules[i].action)
    then None
    else Some(BannerLength(c) + LongestPayload(c.rules))
  }

  /** The rules in order, first match wins. */
  function Eval(rules: seq<Rule>, data: seq<byte>, first: bool): Option<Rule> {
    if rules == [] then None
    else if Matches(rules[0].matcher, data, first) then Some(rules[0])
    else Eval(rules[1..], data, first)
  }

  /** What an action sends in answer to received bytes; nothing is sent when it is empty. */
  function Payload(a: Action, received: seq<byte>): seq<byte>
  {
    if a.IsSilent() then []
    else if a.echo then received
    else if a.dns.Some? then
      match Replied(received, a.dns.value)
      case Some(r) => r
      case None => []
    else a.payload
  }
}

/** What a profile can say, and how much. */
module ProfileBounds {
  import opened Bytes
  import opened Wrappers
  import opened HexText
  import opened Fields
  import opened Dns
  import opened DnsSafety
  import opened Profile

  /** The rule that answers is the matching one with the least index. */
  lemma {:induction false} EvalPicksFirstMatch(rules: seq<Rule>, data: seq<byte>, first: bool)
    ensures Eval(rules, data, first) == None
       <==> forall i :: 0 <= i < |rules| ==> !Matches(rules[i].matcher, data, first)
    ensures forall r :: Eval(rules, data, first) == Some(r) ==> exists i :: Answers(rules, data, first, i) && r == rules[i]
    ensures forall i :: Answers(rules, data, first, i) ==> Eval(rules, data, first) == Some(rules[i])
  {
    hide Matches;
    if rules != [] {
      var rest := rules[1..];
      EvalPicksFirstMatch(rest, data, first);
      assert forall i :: 0 <= i < |rest| ==> rest[i] == rules[i + 1];
      if Matches(rules[0].matcher, data, first) {
        assert Answers(rules, data, first, 0);
      } else {
        forall i | Answers(rest, data, first, i)
          ensures Answers(rules, data, first, i + 1)
        {
          assert forall j :: 0 <= j < i + 1 ==> j == 0 || rules[j] == rest[j - 1];
        }
        forall i | Answers(rules, data, first, i)
          ensures i > 0 && Answers(rest, data, first, i - 1)
        {
        }
      }
    }
  }

  ghost predicate Answers(rules: seq<Rule>, data: seq<byte>, first: bool, i: int) {
    0 <= i < |rules| && Matches(rules[i].matcher, data, first) && forall j :: 0 <= j < i ==> !Matches(rules[j].matcher, data, first)
  }

  /** A needle is found exactly when it is not empty and occurs, and then at its first occurrence. */
  lemma {:induction false} FindIsFirst(hay: seq<byte>, needle: seq<byte>)
    ensures Find(hay, needle).Some? <==> needle != [] && exists i :: OccursAt(hay, needle, i)
    ensures Find(hay, needle).Some? ==> forall i :: OccursAt(hay, needle, i) ==> Find(hay, needle).value <= i
  {
    if needle != [] && |needle| <= |hay| {
      if hay[..|needle|] == needle {
        assert OccursAt(hay, needle, 0);
      } else {
        FindIsFirst(hay[1..], needle);
        forall i | OccursAt(hay[1..], needle, i)
          ensures OccursAt(hay, needle, i + 1)
        {
          assert hay[1..][i..i + |needle|] == hay[i + 1..i + 1 + |needle|];
        }
        forall i | OccursAt(hay, needle, i)
          ensures i > 0 && OccursAt(hay[1..], needle, i - 1)
        {
          assert hay[i..i + |needle|] == needle;
          if i == 0 {
            assert false;
          }
          assert hay[1..][i - 1..i - 1 + |needle|] == hay[i..i + |needle|];
        }
      }
    }
  }

  ghost predicate OccursAt(hay: seq<byte>, needle: seq<byte>, i: int) {
    0 <= i <= i + |needle| <= |hay| && hay[i..i + |needle|] == needle
  }

  lemma {:induction false} LongestIsLongest(rules: seq<Rule>, i: nat)
    requires i < |rules|
    ensures |rules[i].action.payload| <= LongestPayload(rules)
  {
    if i > 0 {
      LongestIsLongest(rules[1..], i - 1);
    }
  }

  /** Nothing an action sends is longer than its payload or 28 bytes more than what it answers. An echo is what was
      received, a DNS action's is the reply if there is one, any other's is the payload. */
  lemma PayloadIsBounded(a: Action, received: seq<byte>)
    ensures |Payload(a, received)| <= |a.payload| || |Payload(a, received)| <= |received| + 28
    ensures !Reflects(a) ==> Payload(a, received) == a.payload
    ensures a.IsSilent() ==> Payload(a, received) == []
    ensures a.echo ==> Payload(a, received) == received
    ensures !a.echo && a.dns.Some? && Parsed(received).Some? ==> Some(Payload(a, received)) == Replied(received, a.dns.value)
    ensures !a.echo && a.dns.Some? && Parsed(received) == None ==> Payload(a, received) == []
  {
    hide Parsed;
    if !a.echo && a.dns.Some? && Replied(received, a.dns.value).Some? {
      ReplyLength(received, a.dns.value);
    }
  }

  // ---------------------------------------------------------------- what is said, exactly

  /** What an action says to what it hears: an echo the same, a DNS action the reply, in a frame over TCP, and nothing to
      what holds no query, any other its payload. Over TCP the query is as much of the frame as has arrived. */
  ghost predicate Says(tcp: bool, a: Action, heard: seq<byte>, said: seq<byte>) {
    if a.echo then said == heard
    else if a.dns == None then said == a.payload
    else if !tcp then said == (if Replied(heard, a.dns.value).Some? then Replied(heard, a.dns.value).value else [])
    else if |heard| < 2 then said == []
    else
      var query := heard[2..2 + Min(256 * heard[0] as int + heard[1] as int, |heard| - 2)];
      match Replied(query, a.dns.value)
      case None => said == []
      case Some(r) => |r| < 0x1_0000 && said == [|r| / 256, |r| % 256] + r
  }

  /** Of the rules that match, the one with the least index answers; when none does nothing is said. */
  ghost predicate RulesSay(tcp: bool, rules: seq<Rule>, data: seq<byte>, first: bool, said: seq<byte>) {
    if exists i :: Answers(rules, data, first, i)
    then exists i :: Answers(rules, data, first, i) && Says(tcp, rules[i].action, data, said)
    else said == []
  }

  lemma PayloadIsSaid(a: Action, received: seq<byte>)
    ensures Says(false, a, received, Payload(a, received))
  {
    hide Replied;
  }

  lemma RuleReplyIsSaid(rules: seq<Rule>, data: seq<byte>, first: bool)
    ensures RulesSay(false, rules, data, first,
                     if Eval(rules, data, first).Some? then Payload(Eval(rules, data, first).value.action, data) else [])
  {
    hide Payload, Says;
    EvalPicksFirstMatch(rules, data, first);
    if Eval(rules, data, first).Some? {
      PayloadIsSaid(Eval(rules, data, first).value.action, data);
    } else {
      assert forall i :: !Answers(rules, data, first, i);
    }
  }

  /** An action is silent exactly when there is nothing it answers. */
  lemma SilentMeansNeverSpeaks(a: Action)
    ensures a.IsSilent() <==> forall received :: Payload(a, received) == []
  {
    if !a.IsSilent() {
      var query := [0, 1, 1, 0, 0, 1, 0, 0, 0, 0, 0, 0, 0, 0, 1, 0, 1];
      ShortestQueryParses();
      hide Replied, Parsed;
      if a.echo {
        assert Payload(a, [0]) == [0];
      } else if a.dns.Some? {
        ReplyHasHeader(query, a.dns.value);
        assert Payload(a, query) != [];
      } else {
        assert Payload(a, []) == a.payload;
      }
    }
  }

  /** An action reflects exactly when what it says depends on what it hears. */
  lemma ReflectingMeansVarying(a: Action)
    ensures Reflects(a) <==> exists x, y :: Payload(a, x) != Payload(a, y)
  {
    if Reflects(a) {
      SilentMeansNeverSpeaks(a);
      var x :| Payload(a, x) != [];
      NothingDrawsNothing(a);
      assert Payload(a, x) != Payload(a, []);
    } else {
      forall x, y
        ensures Payload(a, x) == Payload(a, y)
      {
        PayloadIsBounded(a, x);
        PayloadIsBounded(a, y);
      }
    }
  }

  lemma NothingDrawsNothing(a: Action)
    requires Reflects(a)
    ensures Payload(a, []) == []
  {
  }

  lemma ShortestQueryParses()
    ensures var query := [0, 1, 1, 0, 0, 1, 0, 0, 0, 0, 0, 0, 0, 0, 1, 0, 1];
      Parsed(query) == Some(Query(1, 0x100, TYPE_A, CLASS_IN, 17))
  {
    assert Walk([0, 1, 1, 0, 0, 1, 0, 0, 0, 0, 0, 0, 0, 0, 1, 0, 1], 12, 0) == Some(13);
  }

  lemma ReplyHasHeader(msg: seq<byte>, ans: Answer)
    requires Parsed(msg).Some?
    ensures Replied(msg, ans).Some? && Replied(msg, ans).value != []
  {
    hide Parsed;
    ReplyDecodes(msg, ans);
    ReplyLength(msg, ans);
    ParseIsBoundedAndLocal(msg, msg);
    ParsedParts(msg);
  }

  ghost predicate CanSpeak(a: Action) {
    exists received :: Payload(a, received) != []
  }

  ghost predicate Varies(a: Action) {
    exists x, y :: Payload(a, x) != Payload(a, y)
  }

  /** A profile responds exactly when its banner or one of its rules can say something. */
  lemma RespondsMeans(c: Compiled)
    ensures Responds(c) <==>
      (c.onConnect.Some? && CanSpeak(c.onConnect.value)) || exists i :: 0 <= i < |c.rules| && CanSpeak(c.rules[i].action)
  {
    hide Payload;
    if c.onConnect.Some? {
      SilentMeansNeverSpeaks(c.onConnect.value);
    }
    forall i | 0 <= i < |c.rules|
      ensures CanSpeak(c.rules[i].action) <==> !c.rules[i].action.IsSilent()
    {
      SilentMeansNeverSpeaks(c.rules[i].action);
    }
  }

  /** max_response_bytes gives a number exactly when nothing the profile says depends on what it hears, and the number is
      the banner's length and the longest rule payload's: no rule passes it, and one reaches it if there are any. */
  lemma MaxResponseMeans(c: Compiled)
    ensures MaxResponseBytes(c).Some? <==>
      (c.onConnect.Some? ==> !Varies(c.onConnect.value)) && forall i :: 0 <= i < |c.rules| ==> !Varies(c.rules[i].action)
    ensures MaxResponseBytes(c).Some? ==>
      var n, banner := MaxResponseBytes(c).value, if c.onConnect.Some? then |c.onConnect.value.payload| else 0;
      && (forall i :: 0 <= i < |c.rules| ==> banner + |c.rules[i].action.payload| <= n)
      && (c.rules == [] ==> n == banner)
      && (c.rules != [] ==> exists i :: 0 <= i < |c.rules| && banner + |c.rules[i].action.payload| == n)
  {
    hide Payload, Reflects;
    if c.onConnect.Some? {
      ReflectingMeansVarying(c.onConnect.value);
    }
    forall i | 0 <= i < |c.rules|
      ensures Varies(c.rules[i].action) <==> Reflects(c.rules[i].action)
      ensures |c.rules[i].action.payload| <= LongestPayload(c.rules)
    {
      ReflectingMeansVarying(c.rules[i].action);
      LongestIsLongest(c.rules, i);
    }
    if c.rules != [] {
      var i := LongestIsReached(c.rules);
    }
  }

  lemma {:induction false} LongestIsReached(rules: seq<Rule>) returns (i: nat)
    requires rules != []
    ensures i < |rules| && |rules[i].action.payload| == LongestPayload(rules)
  {
    if |rules| == 1 || |rules[0].action.payload| > LongestPayload(rules[1..]) {
      i := 0;
    } else {
      i := LongestIsReached(rules[1..]);
      i := i + 1;
    }
  }

  // ---------------------------------------------------------------- how much is said

  /** The profile's answers to one message: the banner if it is the first, then the matching rule's. */
  ghost function Banner(c: Compiled, data: seq<byte>, first: bool): seq<byte>
  {
    if first && c.onConnect.Some? then Payload(c.onConnect.value, data) else []
  }

  ghost function RuleReply(c: Compiled, data: seq<byte>, first: bool): seq<byte>
  {
    match Eval(c.rules, data, first)
    case None => []
    case Some(r) => Payload(r.action, data)
  }

  lemma {:induction false} EvalIsRule(rules: seq<Rule>, data: seq<byte>, first: bool) returns (i: nat)
    requires Eval(rules, data, first).Some?
    ensures i < |rules| && Eval(rules, data, first) == Some(rules[i])
  {
    EvalPicksFirstMatch(rules, data, first);
    var j :| Answers(rules, data, first, j) && Eval(rules, data, first).value == rules[j];
    i := j;
  }

  /** When max_response_bytes gives a number, one message never draws more; a profile that does not respond says nothing. */
  lemma ResponseIsBounded(c: Compiled, data: seq<byte>, first: bool)
    ensures MaxResponseBytes(c).Some? ==>
      && |Banner(c, data, first)| <= (if first then BannerLength(c) else 0)
      && |RuleReply(c, data, first)| <= LongestPayload(c.rules)
      && |Banner(c, data, first)| + |RuleReply(c, data, first)| <= MaxResponseBytes(c).value
    ensures !Responds(c) ==> Banner(c, data, first) == RuleReply(c, data, first) == []
  {
    hide Payload, Eval, Reflects;
    if c.onConnect.Some? {
      PayloadIsBounded(c.onConnect.value, data);
    }
    if Eval(c.rules, data, first).Some? {
      var i := EvalIsRule(c.rules, data, first);
      PayloadIsBounded(c.rules[i].action, data);
      LongestIsLongest(c.rules, i);
    }
  }

  /** A profile with no such number is said to mirror the request size. Its DNS replies do not: the reply is longer than
      the query exactly when fewer bytes follow the question than the answer record takes. */
  lemma DnsRepliesMirrorOnlyPaddedQueries(msg: seq<byte>, ans: Answer)
    requires Replied(msg, ans).Some?
    ensures var q := Parsed(msg).value;
      |Replied(msg, ans).value| > |msg| <==> Rdata(q, ans).Some? && |msg| - q.end < 12 + |Rdata(q, ans).value|
  {
    ReplyLength(msg, ans);
    ParseIsBoundedAndLocal(msg, msg);
  }

  // ---------------------------------------------------------------- responses against the request size

  /** The bytes a DNS reply adds after the question. */
  ghost function RecordLength(q: Query, ans: Answer): nat {
    if Rdata(q, ans).Some? then 12 + |Rdata(q, ans).value| else 0
  }

  /** An action has something to say to these bytes. */
  ghost predicate Speaks(a: Action, received: seq<byte>) {
    if a.echo then received != []
    else if a.dns.Some? then Parsed(received).Some?
    else a.payload != []
  }

  /** How long an action's answer is, when it is no echo. */
  ghost function Length(a: Action, received: seq<byte>): nat {
    if a.dns == None then |a.payload|
    else
      match Parsed(received)
      case Some(q) => q.end + RecordLength(q, a.dns.value)
      case None => 0
  }

  /** An action alone says more than it heard: an echo never, a DNS action when the query has fewer bytes after its
      question than the answer record takes, any other when its payload is longer. */
  ghost predicate Outgrows(a: Action, received: seq<byte>) {
    if a.echo then false
    else if a.dns.Some? then
      match Parsed(received)
      case Some(q) => |received| - q.end < RecordLength(q, a.dns.value)
      case None => false
    else |a.payload| > |received|
  }

  /** A banner and a rule together say more than they heard: next to an echo anything is too much. */
  ghost predicate OutgrowTogether(a: Action, b: Action, received: seq<byte>) {
    if a.echo then Speaks(b, received)
    else if b.echo then Speaks(a, received)
    else Length(a, received) + Length(b, received) > |received|
  }

  lemma PayloadLength(a: Action, received: seq<byte>)
    ensures a.echo ==> Payload(a, received) == received
    ensures !a.echo ==> |Payload(a, received)| == Length(a, received)
    ensures Payload(a, received) != [] <==> Speaks(a, received)
    ensures |Payload(a, received)| > |received| <==> Outgrows(a, received)
  {
    hide Parsed;
    if !a.echo && a.dns.Some? && Parsed(received).Some? {
      ReplyLength(received, a.dns.value);
      ParseIsBoundedAndLocal(received, received);
      DnsRepliesMirrorOnlyPaddedQueries(received, a.dns.value);
    }
  }

  /** A message draws more bytes than it has exactly when the one action that answers it outgrows it, or the banner and
      the rule do together. */
  ghost predicate DrawsMore(c: Compiled, data: seq<byte>, first: bool) {
    var banner := if first then c.onConnect else None;
    match Eval(c.rules, data, first)
    case None => banner.Some? && Outgrows(banner.value, data)
    case Some(r) => if banner.Some? then OutgrowTogether(banner.value, r.action, data) else Outgrows(r.action, data)
  }

  lemma ResponseOutgrowsRequestIff(c: Compiled, data: seq<byte>, first: bool)
    ensures |Banner(c, data, first)| + |RuleReply(c, data, first)| > |data| <==> DrawsMore(c, data, first)
  {
    hide Payload, Eval, Length, Speaks, Outgrows;
    if c.onConnect.Some? {
      PayloadLength(c.onConnect.value, data);
    }
    if Eval(c.rules, data, first).Some? {
      PayloadLength(Eval(c.rules, data, first).value.action, data);
    }
  }

  const ANY := Match(None, None, None, None, None, None, None, None, None, None, false)

  const ECHO := Action([], true, false, None)

  /** A banner before an echo: one byte draws three. */
  lemma GreetingEchoesOutgrow(name: string)
    ensures var c := Compiled(Some(Action([1, 2], false, false, None)), [Rule(name, ANY, ECHO)]);
      MaxResponseBytes(c) == None && |Banner(c, [7], true)| + |RuleReply(c, [7], true)| == 3
  {
    var c := Compiled(Some(Action([1, 2], false, false, None)), [Rule(name, ANY, ECHO)]);
    assert Reflects(c.rules[0].action);
    assert Banner(c, [7], true) == [1, 2];
    assert RuleReply(c, [7], true) == [7];
  }

  /** An echo that does not match before a payload that does: one byte draws as many as the payload has. */
  lemma OtherRulesOutgrow(name: string, payload: seq<byte>)
    requires payload != []
    ensures var c := Compiled(None, [Rule(name, ANY.(len := Some(0)), ECHO), Rule(name, ANY, Action(payload, false, false, None))]);
      MaxResponseBytes(c) == None && Banner(c, [7], true) == [] && RuleReply(c, [7], true) == payload
  {
    var c := Compiled(None, [Rule(name, ANY.(len := Some(0)), ECHO), Rule(name, ANY, Action(payload, false, false, None))]);
    assert Reflects(c.rules[0].action);
    assert c.rules[1..][0] == c.rules[1];
    assert Eval(c.rules, [7], true) == Eval(c.rules[1..], [7], true) == Some(c.rules[1]);
  }

  /** The shortest query there is, for an address: seventeen bytes draw thirty-three. */
  lemma ShortestQueryOutgrows(name: string, a: Ipv4, ttl: dword)
    ensures var query, dns := [0, 1, 1, 0, 0, 1, 0, 0, 0, 0, 0, 0, 0, 0, 1, 0, 1], Answer(Some(a), None, ttl);
      var c := Compiled(None, [Rule(name, ANY, Action([], false, false, Some(dns)))]);
      MaxResponseBytes(c) == None && |query| == 17 && |RuleReply(c, query, true)| == 33
  {
    var query, dns := [0, 1, 1, 0, 0, 1, 0, 0, 0, 0, 0, 0, 0, 0, 1, 0, 1], Answer(Some(a), None, ttl);
    var c := Compiled(None, [Rule(name, ANY, Action([], false, false, Some(dns)))]);
    assert Reflects(c.rules[0].action);
    ShortestQueryParses();
    ReplyLength(query, dns);
    hide Replied, Parsed;
    assert Eval(c.rules, query, true) == Some(c.rules[0]);
  }

  /** The most an action says to n bytes: an echo as many, a DNS action 28 more than a question holds, any other its
      payload. */
  ghost function ActionBound(a: Action, n: nat): nat {
    if a.echo then n
    else if a.dns.Some? then Min(n, 8209) + 28
    else |a.payload|
  }

  ghost function RulesBound(rules: seq<Rule>, n: nat): nat {
    if rules == [] then 0 else Max(ActionBound(rules[0].action, n), RulesBound(rules[1..], n))
  }

  ghost function BannerBound(c: Compiled, n: nat): nat {
    if c.onConnect.Some? then ActionBound(c.onConnect.value, n) else 0
  }

  ghost function Max(a: nat, b: nat): nat {
    if a < b then b else a
  }

  lemma {:induction false} RuleWithinBound(rules: seq<Rule>, i: nat, n: nat)
    requires i < |rules|
    ensures ActionBound(rules[i].action, n) <= RulesBound(rules, n)
  {
    if i > 0 {
      RuleWithinBound(rules[1..], i - 1, n);
    }
  }

  /** Any profile's answers are bounded by the length of what they answer. */
  lemma ResponseIsWithinBounds(c: Compiled, data: seq<byte>, first: bool)
    ensures |Banner(c, data, first)| <= (if first then BannerBound(c, |data|) else 0)
    ensures |RuleReply(c, data, first)| <= RulesBound(c.rules, |data|)
  {
    hide Payload, Eval, ActionBound;
    if c.onConnect.Some? {
      PayloadWithinBound(c.onConnect.value, data);
    }
    if Eval(c.rules, data, first).Some? {
      var i := EvalIsRule(c.rules, data, first);
      PayloadWithinBound(c.rules[i].action, data);
      RuleWithinBound(c.rules, i, |data|);
    }
  }

  lemma PayloadWithinBound(a: Action, received: seq<byte>)
    ensures |Payload(a, received)| <= ActionBound(a, |received|)
  {
    hide Parsed;
    if !a.echo && a.dns.Some? && Parsed(received).Some? {
      ReplyLength(received, a.dns.value);
    }
  }

  /** The bounds are the longest payload or 28 bytes more than the request at most, and no more than the longest payload
      and the banner when max_response_bytes gives a number. */
  lemma {:induction false} BoundsFollowRequest(rules: seq<Rule>, n: nat)
    ensures RulesBound(rules, n) <= Max(LongestPayload(rules), n + 28)
    ensures (forall i :: 0 <= i < |rules| ==> !Reflects(rules[i].action)) ==> RulesBound(rules, n) == LongestPayload(rules)
    ensures (forall i :: 0 <= i < |rules| ==> rules[i].action.dns == None) ==> RulesBound(rules, n) <= Max(LongestPayload(rules), n)
  {
    if rules != [] {
      BoundsFollowRequest(rules[1..], n);
      assert forall i :: 0 <= i < |rules[1..]| ==> rules[1..][i] == rules[i + 1];
    }
  }

  // ---------------------------------------------------------------- what a matcher means

  /** Two bytes are the same to a matcher: equal, or equal but for ASCII case when it ignores case. */
  ghost predicate Same(ignoreCase: bool, a: byte, b: byte) {
    a == b || (ignoreCase && ((a == b + 32 && 65 <= b <= 90) || (b == a + 32 && 65 <= a <= 90)))
  }

  ghost predicate SameAt(ignoreCase: bool, data: seq<byte>, at: int, text: seq<byte>) {
    0 <= at <= at + |text| <= |data| && forall i :: 0 <= i < |text| ==> Same(ignoreCase, data[at + i], text[i])
  }

  ghost predicate BytesAt(data: seq<byte>, at: int, hex: AsciiText) {
    ParseHex(hex).Some? && OccursAt(data, ParseHex(hex).value, at)
  }

  /** Every field that is present holds, each by its own meaning. A needle to be contained must not be empty. */
  ghost predicate AllHold(m: Match, data: seq<byte>, first: bool) {
    && m.any != Some(false)
    && (m.firstOnly == Some(true) ==> first)
    && (m.len.Some? ==> |data| == m.len.value)
    && (m.minLen.Some? ==> |data| >= m.minLen.value)
    && (m.maxLen.Some? ==> |data| <= m.maxLen.value)
    && (m.startsWith.Some? ==> SameAt(m.ignoreCase, data, 0, m.startsWith.value))
    && (m.endsWith.Some? ==> SameAt(m.ignoreCase, data, |data| - |m.endsWith.value|, m.endsWith.value))
    && (m.contains.Some? ==> m.contains.value != [] && exists i :: SameAt(m.ignoreCase, data, i, m.contains.value))
    && (m.prefixHex.Some? ==> BytesAt(data, 0, m.prefixHex.value))
    && (m.containsHex.Some? ==> ParseHex(m.containsHex.value) != Some([]) && exists i :: BytesAt(data, i, m.containsHex.value))
  }

  lemma LowerMeansSame(a: byte, b: byte)
    ensures Lower(a) == Lower(b) <==> Same(true, a, b)
  {
  }

  lemma FoldMeansSame(m: Match, data: seq<byte>, at: int, text: seq<byte>)
    ensures OccursAt(Fold(m, data), Fold(m, text), at) <==> SameAt(m.ignoreCase, data, at, text)
  {
    var hay, needle := Fold(m, data), Fold(m, text);
    if 0 <= at <= at + |text| <= |data| {
      forall i | 0 <= i < |text|
        ensures hay[at..at + |needle|][i] == needle[i] <==> Same(m.ignoreCase, data[at + i], text[i])
      {
        LowerMeansSame(data[at + i], text[i]);
        assert hay[at..at + |needle|][i] == hay[at + i];
      }
      if SameAt(m.ignoreCase, data, at, text) {
        assert hay[at..at + |needle|] == needle;
      }
    }
  }

  lemma HexMeans(data: seq<byte>, hex: AsciiText)
    ensures HexPrefix(data, hex) <==> BytesAt(data, 0, hex)
    ensures HexContained(data, hex) <==> ParseHex(hex) != Some([]) && exists i :: BytesAt(data, i, hex)
  {
    hide ParseHex, Find;
    if ParseHex(hex).Some? {
      var needle := ParseHex(hex).value;
      FindIsFirst(data, needle);
      assert forall i :: OccursAt(data, needle, i) <==> BytesAt(data, i, hex);
      assert needle <= data <==> OccursAt(data, needle, 0);
    }
  }

  lemma StringsMean(m: Match, data: seq<byte>, text: seq<byte>)
    ensures Fold(m, text) <= Fold(m, data) <==> SameAt(m.ignoreCase, data, 0, text)
    ensures EndsWith(Fold(m, data), Fold(m, text)) <==> SameAt(m.ignoreCase, data, |data| - |text|, text)
    ensures Find(Fold(m, data), Fold(m, text)).Some? <==> text != [] && exists i :: SameAt(m.ignoreCase, data, i, text)
  {
    hide Fold, Find, SameAt;
    var hay, needle := Fold(m, data), Fold(m, text);
    FoldLength(m, data);
    FoldLength(m, text);
    FoldMeansSame(m, data, 0, text);
    FoldMeansSame(m, data, |data| - |text|, text);
    assert needle <= hay <==> OccursAt(hay, needle, 0);
    FindIsFirst(hay, needle);
    forall i: int
      ensures OccursAt(hay, needle, i) <==> SameAt(m.ignoreCase, data, i, text)
    {
      FoldMeansSame(m, data, i, text);
    }
  }

  lemma FoldLength(m: Match, d: seq<byte>)
    ensures |Fold(m, d)| == |d|
  {
  }

  /** A matcher matches exactly when every field that is present holds. */
  lemma MatchesMeansAllHold(m: Match, data: seq<byte>, first: bool)
    ensures Matches(m, data, first) <==> AllHold(m, data, first)
  {
    hide Fold, Find, SameAt, BytesAt, HexPrefix, HexContained, EndsWith, ParseHex;
    if m.startsWith.Some? {
      StringsMean(m, data, m.startsWith.value);
    }
    if m.endsWith.Some? {
      StringsMean(m, data, m.endsWith.value);
    }
    if m.contains.Some? {
      StringsMean(m, data, m.contains.value);
    }
    if m.prefixHex.Some? {
      HexMeans(data, m.prefixHex.value);
    }
    if m.containsHex.Some? {
      HexMeans(data, m.containsHex.value);
    }
  }
}

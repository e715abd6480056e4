/**
 * Runs of one pubsub key: what each client hears when own messages are told apart by text, and exactly
 * which messages may be heard in another order than if they were told apart by identity.
 */
module Suppression {
  import opened Wrappers

  type Client = nat

  /** A message as it travels: its text, and which local subscriber published it, if one did. */
  datatype Message = Message(text: string, sender: Option<Client>)

  datatype PublishIgnore = PublishIgnore(client: Client, message: string)

  /** What would be ignored if messages were told apart by identity. */
  function Tagged(messages: seq<Message>): seq<PublishIgnore> {
    if |messages| == 0 then []
    else
      var first := messages[0];
      (if first.sender.Some? then [PublishIgnore(first.sender.value, first.text)] else []) + Tagged(messages[1..])
  }

  /** What a subscriber should hear, telling messages apart by identity: everybody else's. */
  function ByIdentity(messages: seq<Message>, client: Client): seq<string> {
    if |messages| == 0 then []
    else
      var last := messages[|messages| - 1];
      ByIdentity(messages[..|messages| - 1], client) + (if last.sender == Some(client) then [] else [last.text])
  }

  lemma {:induction false} TaggedAppends(messages: seq<Message>, m: Message)
    ensures Tagged(messages + [m]) == Tagged(messages) + Tagged([m])
  {
    if |messages| > 0 {
      assert (messages + [m])[1..] == messages[1..] + [m];
      TaggedAppends(messages[1..], m);
    } else {
      assert messages + [m] == [m];
    }
  }

  lemma TaggedOne(text: string, sender: Option<Client>)
    ensures Tagged([Message(text, sender)]) == if sender.Some? then [PublishIgnore(sender.value, text)] else []
  {
  }

  // Runs

  /** Messages are sent one after another, and delivered in that order, at any time after. */
  datatype Event = Send(m: Message) | Deliver

  datatype Net = Net(sent: seq<Message>, delivered: nat, ignore: seq<PublishIgnore>) {
    predicate Enabled(e: Event) {
      e.Deliver? ==> delivered < |sent|
    }

    /** The message delivered next is taken for the own message noted first. */
    predicate Matches()
      requires delivered < |sent|
    {
      |ignore| > 0 && ignore[0].message == sent[delivered].text
    }

    function Step(e: Event): Net
      requires Enabled(e)
    {
      match e
      case Send(m) => Net(sent + [m], delivered, ignore + Tagged([m]))
      case Deliver => Net(sent, delivered + 1, if Matches() then ignore[1..] else ignore)
    }

    /** What a client hears in this step. */
    function Hears(e: Event, c: Client): seq<string>
      requires Enabled(e)
    {
      if e.Send? || (Matches() && ignore[0].client == c) then [] else [sent[delivered].text]
    }
  }

  predicate IsRun(events: seq<Event>)
    decreases |events|, 0
  {
    |events| == 0 || (IsRun(events[..|events| - 1]) && Play(events[..|events| - 1]).Enabled(events[|events| - 1]))
  }

  /** Where a run leads. */
  function Play(events: seq<Event>): Net
    requires IsRun(events)
    decreases |events|, 1
  {
    if |events| == 0 then Net([], 0, []) else Play(events[..|events| - 1]).Step(events[|events| - 1])
  }

  function Heard(events: seq<Event>, c: Client): seq<string>
    requires IsRun(events)
    decreases |events|
  {
    if |events| == 0 then []
    else
      var front := events[..|events| - 1];
      Heard(front, c) + Play(front).Hears(events[|events| - 1], c)
  }

  lemma RunExtends(events: seq<Event>, e: Event)
    requires IsRun(events) && Play(events).Enabled(e)
    ensures IsRun(events + [e]) && Play(events + [e]) == Play(events).Step(e)
    ensures forall c: Client :: Heard(events + [e], c) == Heard(events, c) + Play(events).Hears(e, c)
  {
    hide Net.Step, Net.Hears, Net.Enabled;
    assert (events + [e])[..|events + [e]| - 1] == events;
  }

  // When the order is kept

  /**
   * `v`, from elsewhere, comes between `i`, also from elsewhere, and an own message `k` of the text of `i`,
   * and all own messages on the way from `i` to `k` have that text too.
   */
  predicate Breaks(messages: seq<Message>, i: nat, v: nat, k: nat) {
    && i < v < k < |messages| && messages[i].sender.None? && messages[v].sender.None? && messages[k].sender.Some?
    && messages[v].text != messages[i].text
    && forall j :: i < j <= k && messages[j].sender.Some? ==> messages[j].text == messages[i].text
  }

  /** What a publisher can check of a list of messages beforehand. */
  predicate KeepsOrder(messages: seq<Message>) {
    forall i, v, k :: 0 <= i < v < k < |messages| ==> !Breaks(messages, i, v, k)
  }

  /** The own texts of a client, in order. */
  function OwnTexts(messages: seq<Message>, c: Client): seq<string> {
    if |messages| == 0 then []
    else (if messages[0].sender == Some(c) then [messages[0].text] else []) + OwnTexts(messages[1..], c)
  }

  /**
   * The list has run ahead of the next `r` messages: those on it that were noted for them are gone. All these
   * messages have the text of `i`, from elsewhere, with which that began.
   */
  predicate Ahead(s: Net, r: nat, i: nat) {
    && s.delivered + r <= |s.sent| && s.ignore == Tagged(s.sent[s.delivered + r..])
    && (r > 0 ==> i < s.delivered && s.sent[i].sender.None?
                  && forall j :: i <= j < s.delivered + r ==> s.sent[j].text == s.sent[i].text)
  }

  /** What a client has missed so far are its own texts among these messages. */
  predicate Lags(s: Net, r: nat, heard: seq<string>, c: Client)
    requires s.delivered + r <= |s.sent|
  {
    ByIdentity(s.sent[..s.delivered], c) == heard + OwnTexts(s.sent[s.delivered..s.delivered + r], c)
  }

  lemma {:induction false} OwnTextsOfSame(messages: seq<Message>, c: Client, t: string)
    requires forall j :: 0 <= j < |messages| ==> messages[j].text == t
    ensures [t] + OwnTexts(messages, c) == OwnTexts(messages, c) + [t]
  {
    if |messages| > 0 {
      var own := if messages[0].sender == Some(c) then [t] else [];
      var rest := OwnTexts(messages[1..], c);
      OwnTextsOfSame(messages[1..], c, t);
      assert OwnTexts(messages, c) == own + rest;
      assert [t] + (own + rest) == own + ([t] + rest) == (own + rest) + [t];
    }
  }

  lemma {:induction false} OwnTextsSplit(a: seq<Message>, b: seq<Message>, c: Client)
    ensures OwnTexts(a + b, c) == OwnTexts(a, c) + OwnTexts(b, c)
  {
    if |a| == 0 {
      assert a + b == b;
    } else {
      assert (a + b)[1..] == a[1..] + b;
      OwnTextsSplit(a[1..], b, c);
    }
  }

  /** The first message on the list, and where it was noted. */
  lemma {:induction false} FirstTagged(messages: seq<Message>) returns (k: nat)
    requires |Tagged(messages)| > 0
    ensures k < |messages| && messages[k].sender.Some? && forall j :: 0 <= j < k ==> messages[j].sender.None?
    ensures Tagged(messages)[0] == PublishIgnore(messages[k].sender.value, messages[k].text)
    ensures Tagged(messages)[1..] == Tagged(messages[k + 1..])
  {
    if messages[0].sender.Some? {
      k := 0;
    } else {
      assert Tagged(messages) == Tagged(messages[1..]);
      k := FirstTagged(messages[1..]);
      assert messages[1..][k + 1..] == messages[k + 2..];
      k := k + 1;
    }
  }

  lemma {:induction false} NoneTagged(messages: seq<Message>, c: Client)
    requires forall j :: 0 <= j < |messages| ==> messages[j].sender.None?
    ensures Tagged(messages) == [] && OwnTexts(messages, c) == []
  {
    if |messages| > 0 {
      NoneTagged(messages[1..], c);
    }
  }

  lemma ByIdentityStep(messages: seq<Message>, n: nat, c: Client)
    requires n < |messages|
    ensures ByIdentity(messages[..n + 1], c) == ByIdentity(messages[..n], c) + (if messages[n].sender == Some(c) then [] else [messages[n].text])
  {
    assert messages[..n + 1][..n] == messages[..n];
  }

  lemma SendKeepsAhead(s: Net, m: Message, r: nat, i: nat, heard: seq<string>, c: Client)
    requires Ahead(s, r, i) && Lags(s, r, heard, c)
    ensures Ahead(s.Step(Send(m)), r, i) && Lags(s.Step(Send(m)), r, heard, c)
  {
    hide Tagged, OwnTexts, ByIdentity;
    var sent := s.sent + [m];
    TaggedAppends(s.sent[s.delivered + r..], m);
    assert sent[s.delivered + r..] == s.sent[s.delivered + r..] + [m];
    assert sent[..s.delivered] == s.sent[..s.delivered];
    assert sent[s.delivered..s.delivered + r] == s.sent[s.delivered..s.delivered + r];
  }

  lemma Rotated(texts: seq<string>, t: string, first: bool)
    requires [t] + texts == texts + [t]
    ensures (if first then [t] else []) + texts + (if first then [] else [t]) == [t] + texts
  {
    assert [] + texts == texts && [t] + texts + [] == [t] + texts;
  }

  /** Where the list runs ahead, the next message counts as heard. */
  lemma NextCounts(s: Net, r: nat, i: nat, heard: seq<string>, c: Client)
    requires r > 0 && Ahead(s, r, i) && Lags(s, r, heard, c)
    ensures var t := s.sent[s.delivered].text; var left := OwnTexts(s.sent[s.delivered + 1..s.delivered + r], c);
      ByIdentity(s.sent[..s.delivered + 1], c) == heard + ([t] + left) && [t] + left == left + [t]
  {
    hide Tagged, ByIdentity, IsRun, Play;
    var p, t, own := s.delivered, s.sent[s.delivered].text, s.sent[s.delivered].sender == Some(c);
    var region := s.sent[p..p + r];
    var left := OwnTexts(region[1..], c);
    assert region[1..] == s.sent[p + 1..p + r];
    ByIdentityStep(s.sent, p, c);
    OwnTextsOfSame(region[1..], c, t);
    Rotated(left, t, own);
    assert OwnTexts(region, c) == (if own then [t] else []) + left;
  }

  lemma DeliverUnmatched(s: Net, r: nat, i: nat, heard: seq<string>, c: Client)
    requires Ahead(s, r, i) && Lags(s, r, heard, c) && s.delivered < |s.sent| && !s.Matches()
    ensures var r' := if r == 0 then 0 else r - 1;
      Ahead(s.Step(Deliver), r', i) && Lags(s.Step(Deliver), r', heard + s.Hears(Deliver, c), c)
  {
    hide Tagged, OwnTexts, ByIdentity;
    var p := s.delivered;
    if r == 0 {
      FirstIsUntagged(s.sent[p..], s.ignore);
      assert s.sent[p..][1..] == s.sent[p + 1..];
      ByIdentityStep(s.sent, p, c);
      NoneTagged(s.sent[p..p], c);
      NoneTagged(s.sent[p + 1..p + 1], c);
    } else {
      NextCounts(s, r, i, heard, c);
    }
  }

  /** A message that the list does not match is none of the own ones that the list begins with. */
  lemma FirstIsUntagged(messages: seq<Message>, ignore: seq<PublishIgnore>)
    requires |messages| > 0 && ignore == Tagged(messages)
    requires !(|ignore| > 0 && ignore[0].message == messages[0].text)
    ensures messages[0].sender.None? && Tagged(messages[1..]) == ignore
  {
  }

  /** In step, the list is matched by the message that was noted first, or by one from elsewhere ahead of it. */
  lemma DeliverMatchedInStep(s: Net, heard: seq<string>, c: Client) returns (r': nat, i': nat)
    requires Ahead(s, 0, 0) && Lags(s, 0, heard, c) && s.delivered < |s.sent| && s.Matches() && KeepsOrder(s.sent)
    ensures s.delivered + 1 + r' <= |s.sent|
    ensures Ahead(s.Step(Deliver), r', i') && Lags(s.Step(Deliver), r', heard + s.Hears(Deliver, c), c)
  {
    hide Tagged, OwnTexts, ByIdentity, KeepsOrder, Breaks;
    var p := s.delivered;
    var rest := s.sent[p..];
    var k := FirstTagged(rest);
    assert rest[k + 1..] == s.sent[p + k + 1..];
    r', i' := k, p;
    ByIdentityStep(s.sent, p, c);
    NoneTagged(s.sent[p..p], c);
    if k == 0 {
      NoneTagged(s.sent[p + 1..p + 1], c);
    } else {
      SameUpTo(s.sent, p, p, p + k);
      OneTaggedLast(rest[1..k + 1], c);
      assert s.sent[p + 1..p + 1 + k] == rest[1..k + 1];
    }
  }

  /** Ahead, it is matched again, and runs ahead further. */
  lemma DeliverMatchedAhead(s: Net, r: nat, i: nat, heard: seq<string>, c: Client) returns (r': nat)
    requires r > 0 && Ahead(s, r, i) && Lags(s, r, heard, c) && s.delivered < |s.sent| && s.Matches()
    requires KeepsOrder(s.sent)
    ensures s.delivered + 1 + r' <= |s.sent|
    ensures Ahead(s.Step(Deliver), r', i) && Lags(s.Step(Deliver), r', heard + s.Hears(Deliver, c), c)
  {
    hide Tagged, OwnTexts, ByIdentity, KeepsOrder, Breaks;
    var p, t := s.delivered, s.sent[s.delivered].text;
    var rest, left := s.sent[p + r..], s.sent[p + 1..p + r];
    var k := FirstTagged(rest);
    assert rest[k + 1..] == s.sent[p + r + k + 1..];
    r' := r + k;
    SameUpTo(s.sent, i, p + r, p + r + k);
    OneTaggedLast(rest[..k + 1], c);
    assert s.sent[p + 1..p + 1 + r'] == left + rest[..k + 1];
    OwnTextsSplit(left, rest[..k + 1], c);
    NextCounts(s, r, i, heard, c);
    Rotated(OwnTexts(left, c), t, rest[k].sender != Some(c));
  }

  /** An order that is kept: between a message from elsewhere and an own one of its text there are no others. */
  lemma SameUpTo(sent: seq<Message>, i: nat, from: nat, k: nat)
    requires KeepsOrder(sent) && i <= from <= k < |sent| && i < k && sent[i].sender.None?
    requires forall j :: i <= j < from ==> sent[j].text == sent[i].text
    requires forall j :: from <= j < k ==> sent[j].sender.None?
    requires sent[k].sender.Some? && sent[k].text == sent[i].text
    ensures forall j :: i <= j <= k ==> sent[j].text == sent[i].text
  {
    forall j | from <= j < k ensures sent[j].text == sent[i].text {
      if sent[j].text != sent[i].text {
        assert Breaks(sent, i, j, k);
      }
    }
  }

  lemma OneTaggedLast(messages: seq<Message>, c: Client)
    requires |messages| > 0 && messages[|messages| - 1].sender.Some?
    requires forall j :: 0 <= j < |messages| - 1 ==> messages[j].sender.None?
    ensures var last := messages[|messages| - 1];
      OwnTexts(messages, c) == if last.sender == Some(c) then [last.text] else []
  {
    var front, last := messages[..|messages| - 1], messages[|messages| - 1];
    NoneTagged(front, c);
    OwnTextsSplit(front, [last], c);
    assert messages == front + [last];
    assert OwnTexts([], c) == [];
  }

  lemma PrefixKeepsOrder(messages: seq<Message>, m: Message)
    requires KeepsOrder(messages + [m])
    ensures KeepsOrder(messages)
  {
    forall i, v, k | 0 <= i < v < k < |messages| ensures !Breaks(messages, i, v, k) {
      assert !Breaks(messages + [m], i, v, k);
    }
  }

  /** At every point of a run over such messages, a client lags by own messages that the list has run ahead of. */
  lemma {:induction false} RunLags(events: seq<Event>, c: Client) returns (r: nat, i: nat)
    requires IsRun(events) && KeepsOrder(Play(events).sent)
    ensures Ahead(Play(events), r, i) && Lags(Play(events), r, Heard(events, c), c)
    decreases |events|
  {
    hide KeepsOrder, Ahead, Lags, Net.Matches;
    if |events| == 0 {
      r, i := 0, 0;
      NothingLags(c);
    } else {
      var front, e := events[..|events| - 1], events[|events| - 1];
      var s := Play(front);
      if e.Send? {
        PrefixKeepsOrder(s.sent, e.m);
        r, i := RunLags(front, c);
        SendKeepsAhead(s, e.m, r, i, Heard(front, c), c);
        assert Heard(front, c) + [] == Heard(front, c);
      } else {
        r, i := RunLags(front, c);
        if s.Matches() {
          if r == 0 {
            InStepAnywhere(s, i);
            r, i := DeliverMatchedInStep(s, Heard(front, c), c);
          } else {
            r := DeliverMatchedAhead(s, r, i, Heard(front, c), c);
          }
        } else {
          DeliverUnmatched(s, r, i, Heard(front, c), c);
          r := if r == 0 then 0 else r - 1;
        }
      }
    }
  }

  lemma InStepAnywhere(s: Net, i: nat)
    requires Ahead(s, 0, i)
    ensures Ahead(s, 0, 0)
  {
  }

  lemma NothingLags(c: Client)
    ensures Ahead(Net([], 0, []), 0, 0) && Lags(Net([], 0, []), 0, [], c)
  {
  }

  /** Once all is delivered, such messages were heard in the order that telling them apart by identity gives. */
  lemma OrderIsKept(events: seq<Event>, c: Client)
    requires IsRun(events) && Play(events).delivered == |Play(events).sent| && KeepsOrder(Play(events).sent)
    ensures Heard(events, c) == ByIdentity(Play(events).sent, c)
  {
    hide ByIdentity, KeepsOrder;
    var r, i := RunLags(events, c);
    var s := Play(events);
    assert s.sent[..s.delivered] == s.sent;
    assert OwnTexts([], c) == [];
  }

  /**
   * One delivery, with the list in step: a client stays in order unless a message from elsewhere has the
   * text of its own message that the list begins with.
   */
  lemma DeliveryKeepsOrderIff(s: Net, heard: seq<string>, c: Client)
    requires s.delivered < |s.sent| && s.ignore == Tagged(s.sent[s.delivered..])
    requires heard == ByIdentity(s.sent[..s.delivered], c)
    ensures heard + s.Hears(Deliver, c) == ByIdentity(s.sent[..s.delivered + 1], c)
      <==> !(s.sent[s.delivered].sender.None? && s.Matches() && s.ignore[0].client == c)
    ensures s.Step(Deliver).ignore == Tagged(s.sent[s.delivered + 1..]) <==> !(s.sent[s.delivered].sender.None? && s.Matches())
  {
    hide ByIdentity;
    var p := s.delivered;
    ByIdentityStep(s.sent, p, c);
    assert s.sent[p..][1..] == s.sent[p + 1..];
  }

  // In step throughout

  /** The first own message after a message from elsewhere never has its text. */
  predicate StaysInStep(messages: seq<Message>) {
    forall i, k :: 0 <= i < k < |messages| ==> !Collides(messages, i, k)
  }

  predicate Collides(messages: seq<Message>, i: nat, k: nat) {
    && i < k < |messages| && messages[i].sender.None? && messages[k].sender.Some? && messages[k].text == messages[i].text
    && forall j :: i < j < k ==> messages[j].sender.None?
  }

  lemma PrefixStaysInStep(messages: seq<Message>, m: Message)
    requires StaysInStep(messages + [m])
    ensures StaysInStep(messages)
  {
    forall i, k | 0 <= i < k < |messages| ensures !Collides(messages, i, k) {
      assert !Collides(messages + [m], i, k);
    }
  }

  /** Then at every point the list holds the own messages on their way, and each client has heard what it should. */
  lemma {:induction false} RunStaysInStep(events: seq<Event>, c: Client)
    requires IsRun(events) && StaysInStep(Play(events).sent)
    ensures var s := Play(events);
      s.delivered <= |s.sent| && s.ignore == Tagged(s.sent[s.delivered..]) && Heard(events, c) == ByIdentity(s.sent[..s.delivered], c)
    decreases |events|
  {
    hide StaysInStep, Tagged, ByIdentity;
    if |events| == 0 {
      assert Tagged([]) == [] && ByIdentity([], c) == [] by { NothingLags(c); NoneTagged([], c); }
    } else {
      var front, e := events[..|events| - 1], events[|events| - 1];
      var s := Play(front);
      if e.Send? {
        PrefixStaysInStep(s.sent, e.m);
        RunStaysInStep(front, c);
        TaggedAppends(s.sent[s.delivered..], e.m);
        assert (s.sent + [e.m])[s.delivered..] == s.sent[s.delivered..] + [e.m];
        assert (s.sent + [e.m])[..s.delivered] == s.sent[..s.delivered];
        assert Heard(front, c) + [] == Heard(front, c);
      } else {
        RunStaysInStep(front, c);
        DeliveryKeepsOrderIff(s, Heard(front, c), c);
        if s.sent[s.delivered].sender.None? && s.Matches() {
          var k := FirstTagged(s.sent[s.delivered..]);
          assert Collides(s.sent, s.delivered, s.delivered + k);
          NeverCollides(s.sent, s.delivered, s.delivered + k);
        }
      }
    }
  }

  lemma NeverCollides(messages: seq<Message>, i: nat, k: nat)
    requires StaysInStep(messages)
    ensures !Collides(messages, i, k)
  {
  }

  /** Messages that share no text with own ones stay in step, and what stays in step keeps its order. */
  lemma NoSharedTextsStayInStep(messages: seq<Message>)
    requires forall i, k :: 0 <= i < |messages| && 0 <= k < |messages| && messages[i].sender.None? && messages[k].sender.Some? ==>
      messages[i].text != messages[k].text
    ensures StaysInStep(messages) && KeepsOrder(messages)
  {
  }

  // Where the order is not kept

  lemma SendOne(events: seq<Event>, m: Message) returns (more: seq<Event>)
    requires IsRun(events)
    ensures var s := Play(events);
      IsRun(more) && Play(more) == Net(s.sent + [m], s.delivered, s.ignore + Tagged([m]))
    ensures forall c: Client :: Heard(more, c) == Heard(events, c)
  {
    hide Tagged, IsRun, Play, Heard;
    RunExtends(events, Send(m));
    more := events + [Send(m)];
    forall c: Client ensures Heard(more, c) == Heard(events, c) {
      assert Heard(more, c) == Heard(events, c) + [];
    }
  }

  lemma TaggedUpTo(messages: seq<Message>, m: nat, n: nat)
    requires m < n <= |messages|
    ensures Tagged(messages[m..n]) == Tagged(messages[m..n - 1]) + Tagged([messages[n - 1]])
  {
    hide Tagged;
    TaggedAppends(messages[m..n - 1], messages[n - 1]);
    assert messages[m..n] == messages[m..n - 1] + [messages[n - 1]];
  }

  /** Sending the next messages of a list. */
  lemma {:induction false} SendUpTo(messages: seq<Message>, events: seq<Event>, n: nat) returns (more: seq<Event>)
    requires IsRun(events) && |Play(events).sent| <= n <= |messages|
    requires Play(events).sent == messages[..|Play(events).sent|]
    ensures IsRun(more) && Play(more).sent == messages[..n] && Play(more).delivered == Play(events).delivered
    ensures Play(more).ignore == Play(events).ignore + Tagged(messages[|Play(events).sent|..n])
    ensures forall c: Client :: Heard(more, c) == Heard(events, c)
    decreases n
  {
    hide Tagged, IsRun, Play, Heard;
    var m := |Play(events).sent|;
    if m == n {
      more := events;
      assert messages[m..n] == [];
      assert Tagged([]) == [] by { NoneTagged([], 0); }
    } else {
      var front := SendUpTo(messages, events, n - 1);
      more := SendOne(front, messages[n - 1]);
      TaggedUpTo(messages, m, n);
      assert messages[..n] == messages[..n - 1] + [messages[n - 1]];
    }
  }

  /** The next message is heard by everybody when nothing is on the list. */
  lemma HearNext(events: seq<Event>) returns (more: seq<Event>)
    requires IsRun(events) && Play(events).delivered < |Play(events).sent| && Play(events).ignore == []
    ensures var s := Play(events);
      IsRun(more) && Play(more) == Net(s.sent, s.delivered + 1, []) && forall c: Client :: Heard(more, c) == Heard(events, c) + [s.sent[s.delivered].text]
  {
    RunExtends(events, Deliver);
    more := events + [Deliver];
  }

  /** The next message is taken for the own message `q`, if that is sent before the next is delivered. */
  lemma HearAhead(messages: seq<Message>, events: seq<Event>, m: nat, p: nat, q: nat) returns (more: seq<Event>)
    requires m <= q < |messages| && p < q && IsRun(events) && Play(events) == Net(messages[..m], p, [])
    requires messages[q].sender.Some? && messages[q].text == messages[p].text
    requires forall j :: m <= j < q ==> messages[j].sender.None?
    ensures IsRun(more) && Play(more) == Net(messages[..q + 1], p + 1, [])
    ensures forall c: Client :: Heard(more, c) == Heard(events, c) + (if messages[q].sender == Some(c) then [] else [messages[q].text])
  {
    hide Tagged, IsRun, Play, Heard;
    var ready := SendUpTo(messages, events, q + 1);
    assert messages[m..q + 1] == messages[m..q] + [messages[q]];
    NoneTagged(messages[m..q], 0);
    TaggedAppends(messages[m..q], messages[q]);
    TaggedOne(messages[q].text, messages[q].sender);
    assert Play(ready) == Net(messages[..q + 1], p, [PublishIgnore(messages[q].sender.value, messages[q].text)]);
    RunExtends(ready, Deliver);
    more := ready + [Deliver];
  }

  /** A run without delay is in order. */
  lemma {:induction false} Promptly(messages: seq<Message>, n: nat) returns (events: seq<Event>)
    requires n <= |messages|
    ensures IsRun(events) && Play(events) == Net(messages[..n], n, []) && forall c: Client :: Heard(events, c) == ByIdentity(messages[..n], c)
  {
    hide ByIdentity, Tagged;
    if n == 0 {
      events := [];
      forall c: Client ensures ByIdentity(messages[..0], c) == [] { NothingHeard(c); }
    } else {
      var front := Promptly(messages, n - 1);
      var m := messages[n - 1];
      RunExtends(front, Send(m));
      var sent := front + [Send(m)];
      assert messages[..n] == messages[..n - 1] + [m];
      TaggedOne(m.text, m.sender);
      RunExtends(sent, Deliver);
      events := sent + [Deliver];
      forall c: Client ensures Heard(events, c) == ByIdentity(messages[..n], c) {
        ByIdentityStep(messages, n - 1, c);
        assert Heard(sent, c) == Heard(front, c) + [];
      }
    }
  }

  lemma NothingHeard(c: Client)
    ensures ByIdentity([], c) == []
  {
  }

  /** Any run can be finished; what was heard stays heard. */
  lemma {:induction false} Finish(messages: seq<Message>, events: seq<Event>) returns (more: seq<Event>)
    requires IsRun(events) && |Play(events).sent| <= |messages| && Play(events).sent == messages[..|Play(events).sent|]
    requires Play(events).delivered <= |Play(events).sent|
    ensures IsRun(more) && Play(more).sent == messages && Play(more).delivered == |messages|
    ensures forall c: Client :: Heard(events, c) <= Heard(more, c)
    decreases |messages| - |Play(events).sent|, |messages| - Play(events).delivered
  {
    hide Tagged;
    var s := Play(events);
    if |s.sent| < |messages| {
      var next := SendUpTo(messages, events, |messages|);
      assert messages[..|messages|] == messages;
      more := Finish(messages, next);
    } else if s.delivered < |messages| {
      RunExtends(events, Deliver);
      more := Finish(messages, events + [Deliver]);
    } else {
      more := events;
    }
  }

  /**
   * After `p` messages of one text the own message `q` was taken for an earlier one: its sender has missed
   * that text, and everybody else is in order.
   */
  ghost predicate Missing(messages: seq<Message>, events: seq<Event>, p: nat, q: nat) {
    && p <= q < |messages| && messages[q].sender.Some? && (forall j :: p <= j < q ==> messages[j].sender.None?)
    && IsRun(events) && Play(events) == Net(messages[..q + 1], p, [])
    && forall c: Client :: ByIdentity(messages[..p], c) == Heard(events, c) + (if messages[q].sender == Some(c) then [messages[q].text] else [])
  }

  /** The first own message from a point on. */
  lemma NextTagged(messages: seq<Message>, from: nat, k: nat) returns (q: nat)
    requires from <= k < |messages| && messages[k].sender.Some?
    ensures from <= q <= k && messages[q].sender.Some? && forall j :: from <= j < q ==> messages[j].sender.None?
    decreases k - from
  {
    if messages[from].sender.Some? {
      q := from;
    } else {
      q := NextTagged(messages, from + 1, k);
    }
  }

  /** A message from elsewhere, delivered when the next own message, of its text, is already noted. */
  lemma BeginMissing(messages: seq<Message>, i: nat, k: nat) returns (events: seq<Event>, q: nat)
    requires i < k < |messages| && messages[i].sender.None? && messages[k].sender.Some?
    requires forall j :: i < j <= k && messages[j].sender.Some? ==> messages[j].text == messages[i].text
    ensures i < q <= k && Missing(messages, events, i + 1, q) && messages[q].text == messages[i].text
  {
    hide IsRun, Play, Heard, ByIdentity;
    q := NextTagged(messages, i + 1, k);
    var prompt := Promptly(messages, i);
    events := HearAhead(messages, prompt, i, i, q);
    forall c: Client ensures ByIdentity(messages[..i + 1], c)
      == Heard(events, c) + (if messages[q].sender == Some(c) then [messages[q].text] else [])
    {
      ByIdentityStep(messages, i, c);
      assert Heard(prompt, c) == ByIdentity(messages[..i], c);
    }
  }

  /** One more message of the text goes by; if it is the own message, the next own message takes its place. */
  lemma KeepMissing(messages: seq<Message>, events: seq<Event>, p: nat, q: nat, k: nat)
    returns (more: seq<Event>, q': nat)
    requires Missing(messages, events, p, q) && p < k < |messages| && q <= k && messages[k].sender.Some?
    requires messages[p].text == messages[q].text
    requires forall j :: p < j <= k && messages[j].sender.Some? ==> messages[j].text == messages[p].text
    ensures q' <= k && Missing(messages, more, p + 1, q') && messages[q'].text == messages[q].text
  {
    hide IsRun, Play, Heard, ByIdentity;
    if p < q {
      q' := q;
      more := HearNext(events);
    } else {
      q' := NextTagged(messages, p + 1, k);
      more := HearAhead(messages, events, p + 1, p, q');
    }
    forall c: Client ensures ByIdentity(messages[..p + 1], c)
      == Heard(more, c) + (if messages[q'].sender == Some(c) then [messages[q'].text] else [])
    {
      ByIdentityStep(messages, p, c);
    }
  }

  lemma {:induction false} KeepMissingUpTo(messages: seq<Message>, i: nat, p: nat, k: nat)
    returns (events: seq<Event>, q: nat)
    requires i < p <= k < |messages| && messages[i].sender.None? && messages[k].sender.Some?
    requires forall j :: i < j <= k && messages[j].sender.Some? ==> messages[j].text == messages[i].text
    requires forall j :: i < j < p ==> messages[j].text == messages[i].text
    ensures q <= k && Missing(messages, events, p, q) && messages[q].text == messages[i].text
    decreases p
  {
    hide Missing;
    if p == i + 1 {
      events, q := BeginMissing(messages, i, k);
    } else {
      events, q := KeepMissingUpTo(messages, i, p - 1, k);
      events, q := KeepMissing(messages, events, p - 1, q, k);
    }
  }

  /** The first message from elsewhere with another text. */
  lemma FirstOther(messages: seq<Message>, i: nat, v: nat, k: nat) returns (w: nat)
    requires Breaks(messages, i, v, k)
    ensures i < w <= v && Breaks(messages, i, w, k) && forall j :: i < j < w ==> messages[j].text == messages[i].text
  {
    w := i + 1;
    while messages[w].sender.Some? || messages[w].text == messages[i].text
      invariant i < w <= v && forall j :: i < j < w ==> messages[j].text == messages[i].text
      decreases v - w
    {
      w := w + 1;
    }
  }

  lemma {:induction false} ByIdentityGrows(messages: seq<Message>, n: nat, c: Client)
    requires n <= |messages|
    ensures ByIdentity(messages[..n], c) <= ByIdentity(messages, c)
    decreases |messages| - n
  {
    hide ByIdentity;
    if n == |messages| {
      assert messages[..n] == messages;
    } else {
      ByIdentityStep(messages, n, c);
      ByIdentityGrows(messages, n + 1, c);
    }
  }

  /** Where the condition fails, some run lets an own client hear the messages in another order. */
  lemma OrderBreaks(messages: seq<Message>, i: nat, v: nat, k: nat) returns (events: seq<Event>, c: Client)
    requires Breaks(messages, i, v, k)
    ensures IsRun(events) && Play(events).sent == messages && Play(events).delivered == |messages|
    ensures Some(c) in Senders(messages) && Heard(events, c) != ByIdentity(messages, c)
  {
    hide IsRun, Play, Heard, ByIdentity;
    var w := FirstOther(messages, i, v, k);
    var ahead, q := KeepMissingUpTo(messages, i, w, k);
    c := messages[q].sender.value;
    var t, heard := messages[i].text, Heard(ahead, c);
    assert ByIdentity(messages[..w], c) == heard + [t];
    var next := HearNext(ahead);
    events := Finish(messages, next);
    ByIdentityGrows(messages, w, c);
    OtherFrom(heard, t, messages[w].text, ByIdentity(messages, c), Heard(events, c));
    SenderOf(messages, q);
  }

  lemma OtherFrom(common: seq<string>, t: string, u: string, a: seq<string>, b: seq<string>)
    requires t != u && common + [t] <= a && common + [u] <= b
    ensures a != b
  {
    assert a[|common|] == (common + [t])[|common|] == t && b[|common|] == (common + [u])[|common|] == u;
  }

  function Senders(messages: seq<Message>): set<Option<Client>> {
    set m | m in messages :: m.sender
  }

  lemma SenderOf(messages: seq<Message>, q: nat)
    requires q < |messages|
    ensures messages[q].sender in Senders(messages)
  {
    assert messages[q] in messages;
  }

  /** Every complete run of these messages lets every client hear them in order. */
  ghost predicate AlwaysInOrder(messages: seq<Message>) {
    forall events: seq<Event>, c: Client ::
      IsRun(events) && Play(events).sent == messages && Play(events).delivered == |messages|
      ==> Heard(events, c) == ByIdentity(messages, c)
  }

  /** The exact condition on the messages published for their order to be kept in every run. */
  lemma AlwaysInOrderIff(messages: seq<Message>)
    ensures AlwaysInOrder(messages) <==> KeepsOrder(messages)
  {
    hide IsRun, Play, Heard, ByIdentity, Breaks;
    if KeepsOrder(messages) {
      forall events: seq<Event>, c: Client
        | IsRun(events) && Play(events).sent == messages && Play(events).delivered == |messages|
        ensures Heard(events, c) == ByIdentity(messages, c)
      {
        OrderIsKept(events, c);
      }
    } else {
      var i, v, k :| 0 <= i < v < k < |messages| && Breaks(messages, i, v, k);
      var events, c := OrderBreaks(messages, i, v, k);
    }
  }

  /** And for being in step at every point of every run. */
  lemma OutOfStep(messages: seq<Message>, i: nat, k: nat) returns (events: seq<Event>)
    requires Collides(messages, i, k)
    ensures IsRun(events) && Play(events).sent <= messages && Play(events).delivered == i + 1
    ensures i + 1 <= |Play(events).sent| && Play(events).ignore != Tagged(Play(events).sent[i + 1..])
    ensures Heard(events, messages[k].sender.value) != ByIdentity(messages[..i + 1], messages[k].sender.value)
  {
    hide IsRun, Play, Heard, ByIdentity, Tagged;
    var q: nat;
    events, q := BeginMissing(messages, i, k);
    assert q == k;
    var sent := messages[..k + 1];
    var c := messages[k].sender.value;
    assert sent[i + 1..] == messages[i + 1..k] + [messages[k]];
    TaggedAppends(messages[i + 1..k], messages[k]);
    TaggedOne(messages[k].text, messages[k].sender);
    assert |ByIdentity(messages[..i + 1], c)| == |Heard(events, c)| + 1;
  }

  /** At every point of every run that sends these messages one after another, the list is in step and all is in order. */
  ghost predicate AlwaysInStep(messages: seq<Message>) {
    forall events: seq<Event>, c: Client :: IsRun(events) && Play(events).sent <= messages ==> IsInStep(Play(events), Heard(events, c), c)
  }

  predicate IsInStep(s: Net, heard: seq<string>, c: Client) {
    s.delivered <= |s.sent| && s.ignore == Tagged(s.sent[s.delivered..]) && heard == ByIdentity(s.sent[..s.delivered], c)
  }

  lemma {:induction false} PrefixesStayInStep(messages: seq<Message>, prefix: seq<Message>)
    requires StaysInStep(messages) && prefix <= messages
    ensures StaysInStep(prefix)
  {
    forall i, k | 0 <= i < k < |prefix| ensures !Collides(prefix, i, k) {
      assert !Collides(messages, i, k);
    }
  }

  lemma AlwaysInStepIff(messages: seq<Message>)
    ensures AlwaysInStep(messages) <==> StaysInStep(messages)
  {
    hide IsRun, Play, Heard, ByIdentity, Collides, Tagged;
    if StaysInStep(messages) {
      forall events: seq<Event>, c: Client | IsRun(events) && Play(events).sent <= messages
        ensures IsInStep(Play(events), Heard(events, c), c)
      {
        PrefixesStayInStep(messages, Play(events).sent);
        RunStaysInStep(events, c);
      }
    } else {
      var i, k :| 0 <= i < k < |messages| && Collides(messages, i, k);
      var events := OutOfStep(messages, i, k);
      assert !IsInStep(Play(events), Heard(events, 0), 0);
    }
  }
}

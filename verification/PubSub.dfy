/**
 * One key of the Redis pubsub adapter: subscribers do not hear what they published themselves. The
 * adapter tells by text alone, from a list of its own messages that are still on their way.
 */
module PubSub {
  import opened Wrappers
  import opened Suppression

  predicate IsSuffix<T(==)>(s: seq<T>, t: seq<T>) {
    |s| <= |t| && s == t[|t| - |s|..]
  }

  function Texts(messages: seq<Message>): multiset<string> {
    if |messages| == 0 then multiset{} else Texts(messages[..|messages| - 1]) + multiset{messages[|messages| - 1].text}
  }

  /** The texts that a subscriber published. */
  function TextsOf(messages: seq<Message>, client: Client): multiset<string> {
    if |messages| == 0 then multiset{}
    else
      var last := messages[|messages| - 1];
      TextsOf(messages[..|messages| - 1], client) + (if last.sender == Some(client) then multiset{last.text} else multiset{})
  }

  /** The texts on the list that will be kept from a subscriber. */
  function IgnoredTexts(ignore: seq<PublishIgnore>, client: Client): multiset<string> {
    if |ignore| == 0 then multiset{}
    else (if ignore[0].client == client then multiset{ignore[0].message} else multiset{}) + IgnoredTexts(ignore[1..], client)
  }

  lemma {:induction false} OwnAndOthers(messages: seq<Message>, client: Client)
    ensures Texts(messages) == TextsOf(messages, client) + multiset(ByIdentity(messages, client))
  {
    if |messages| > 0 {
      OwnAndOthers(messages[..|messages| - 1], client);
    }
  }

  lemma {:induction false} IgnoredAppends(ignore: seq<PublishIgnore>, x: PublishIgnore, client: Client)
    ensures IgnoredTexts(ignore + [x], client)
      == IgnoredTexts(ignore, client) + (if x.client == client then multiset{x.message} else multiset{})
  {
    if |ignore| > 0 {
      assert (ignore + [x])[1..] == ignore[1..] + [x];
      IgnoredAppends(ignore[1..], x, client);
    } else {
      assert ignore + [x] == [x];
      assert IgnoredTexts([], client) == multiset{};
    }
  }

  /** The list keeps up: it never holds more than the own messages still on their way, in their order. */
  lemma {:induction false} DeliveryKeepsSuffix(ignore: seq<PublishIgnore>, channel: seq<Message>)
    requires |channel| > 0 && IsSuffix(ignore, Tagged(channel))
    ensures var matched := |ignore| > 0 && ignore[0].message == channel[0].text;
      IsSuffix(if matched then ignore[1..] else ignore, Tagged(channel[1..]))
  {
    var first, rest, all := channel[0], Tagged(channel[1..]), Tagged(channel);
    assert all == (if first.sender.Some? then [PublishIgnore(first.sender.value, first.text)] else []) + rest;
    hide Tagged;
    if |ignore| <= |rest| {
      assert ignore == rest[|rest| - |ignore|..];
      if |ignore| > 0 {
        assert ignore[1..] == rest[|rest| - |ignore| + 1..];
      }
    } else {
      assert ignore == all && ignore[1..] == rest;
    }
  }

  /** Texts received, and own texts to be kept back, add up to the texts delivered and still to be ignored. */
  predicate Balanced(received: seq<string>, sent: seq<Message>, delivered: nat, ignore: seq<PublishIgnore>, c: Client)
    requires delivered <= |sent|
  {
    multiset(received) + TextsOf(sent, c) == Texts(sent[..delivered]) + IgnoredTexts(ignore, c)
  }

  lemma BagAdds(a: multiset<string>, b: multiset<string>, c: multiset<string>, d: multiset<string>, x: multiset<string>)
    requires a + b == c + d
    ensures a + (b + x) == c + (d + x) && (a + x) + b == (c + x) + d
  {
    assert a + (b + x) == (a + b) + x && c + (d + x) == (c + d) + x;
    assert (a + x) + b == (a + b) + x && (c + x) + d == (c + d) + x;
  }

  /** An own message is noted when it is sent. */
  lemma OwnBalances(received: seq<string>, sent: seq<Message>, delivered: nat, ignore: seq<PublishIgnore>,
      client: Client, text: string, c: Client)
    requires delivered <= |sent| && Balanced(received, sent, delivered, ignore, c)
    ensures Balanced(received, sent + [Message(text, Some(client))], delivered, ignore + [PublishIgnore(client, text)], c)
  {
    hide Texts, TextsOf, IgnoredTexts;
    IgnoredAppends(ignore, PublishIgnore(client, text), c);
    SentAppends(sent, Message(text, Some(client)), delivered, c);
    BagAdds(multiset(received), TextsOf(sent, c), Texts(sent[..delivered]), IgnoredTexts(ignore, c), if client == c then multiset{text} else multiset{});
  }

  lemma SentAppends(sent: seq<Message>, m: Message, delivered: nat, c: Client)
    requires delivered <= |sent|
    ensures (sent + [m])[..delivered] == sent[..delivered]
    ensures TextsOf(sent + [m], c) == TextsOf(sent, c) + (if m.sender == Some(c) then multiset{m.text} else multiset{})
  {
    assert (sent + [m])[..|sent|] == sent;
  }

  lemma OtherBalances(received: seq<string>, sent: seq<Message>, delivered: nat, ignore: seq<PublishIgnore>,
      text: string, c: Client)
    requires delivered <= |sent| && Balanced(received, sent, delivered, ignore, c)
    ensures Balanced(received, sent + [Message(text, None)], delivered, ignore, c)
  {
    hide Texts, TextsOf, IgnoredTexts;
    SentAppends(sent, Message(text, None), delivered, c);
  }

  /** A message heard counts as delivered; one kept back is taken off the list. */
  lemma DeliveryBalances(received: seq<string>, sent: seq<Message>, delivered: nat, ignore: seq<PublishIgnore>,
      c: Client)
    requires delivered < |sent| && Balanced(received, sent, delivered, ignore, c)
    ensures var text := sent[delivered].text; var matched := |ignore| > 0 && ignore[0].message == text;
      Balanced(received + (if matched && ignore[0].client == c then [] else [text]), sent, delivered + 1, if matched then ignore[1..] else ignore, c)
  {
    hide TextsOf, Texts, IgnoredTexts;
    var text := sent[delivered].text;
    var texts, own := Texts(sent[..delivered]), TextsOf(sent, c);
    DeliveredAppends(sent, delivered);
    assert multiset(received + [text]) == multiset(received) + multiset{text};
    assert received + [] == received;
    if |ignore| > 0 && ignore[0].message == text {
      var rest := IgnoredTexts(ignore[1..], c);
      FirstIgnored(ignore, c);
      if ignore[0].client == c {
        Regrouped(texts, multiset{text}, rest);
      } else {
        BagAdds(multiset(received), own, texts, rest, multiset{text});
      }
    } else {
      BagAdds(multiset(received), own, texts, IgnoredTexts(ignore, c), multiset{text});
    }
  }

  lemma DeliveredAppends(sent: seq<Message>, delivered: nat)
    requires delivered < |sent|
    ensures Texts(sent[..delivered + 1]) == Texts(sent[..delivered]) + multiset{sent[delivered].text}
  {
    assert sent[..delivered + 1][..delivered] == sent[..delivered];
  }

  lemma FirstIgnored(ignore: seq<PublishIgnore>, c: Client)
    requires |ignore| > 0
    ensures IgnoredTexts(ignore, c)
      == if ignore[0].client == c then multiset{ignore[0].message} + IgnoredTexts(ignore[1..], c) else IgnoredTexts(ignore[1..], c)
  {
  }

  lemma Cancelled(a: multiset<string>, x: multiset<string>, b: multiset<string>)
    requires a + x == (x + b) + multiset{}
    ensures a == b
  {
    assert forall t :: a[t] + x[t] == (a + x)[t];
    assert forall t :: x[t] + b[t] == (x + b)[t];
  }

  lemma NoEvents()
    ensures IsRun([]) && Play([]) == Net([], 0, []) && forall c: Client :: Heard([], c) == []
  {
  }

  lemma NothingTagged()
    ensures IsSuffix([], Tagged([]))
  {
  }

  lemma NothingBalances(c: Client)
    ensures Balanced([], [], 0, [], c)
  {
    assert Texts([]) == multiset{} && TextsOf([], c) == multiset{} && IgnoredTexts([], c) == multiset{};
  }

  lemma AllDelivered(received: seq<string>, sent: seq<Message>, c: Client)
    requires Balanced(received, sent, |sent|, [], c)
    ensures multiset(received) == multiset(ByIdentity(sent, c))
  {
    hide TextsOf, ByIdentity, Texts;
    assert sent[..|sent|] == sent;
    assert IgnoredTexts([], c) == multiset{};
    OwnAndOthers(sent, c);
    Cancelled(multiset(received), TextsOf(sent, c), multiset(ByIdentity(sent, c)));
  }

  lemma Regrouped(a: multiset<string>, x: multiset<string>, b: multiset<string>)
    ensures a + (x + b) == (a + x) + b && a + (multiset{} + b) == a + b
  {
  }

  class SubscriptionDelegate {
    var ignore: seq<PublishIgnore>
    /** A set in order of insertion. */
    const subscribers: seq<Client>
    /** What Redis was given and has not delivered yet, in order. */
    var channel: seq<Message>
    /** What each listener was called with. */
    var received: map<Client, seq<string>>

    ghost var sent: seq<Message>
    ghost var delivered: nat
    ghost var history: seq<Event>

    ghost predicate Valid()
      reads this
    {
      && (forall i, j :: 0 <= i < j < |subscribers| ==> subscribers[i] != subscribers[j])
      && delivered <= |sent| && channel == sent[delivered..]
      && IsSuffix(ignore, Tagged(channel))
      && (forall c :: c in received <==> c in subscribers)
      && (forall c :: c in received ==> Balanced(received[c], sent, delivered, ignore, c))
      && IsRun(history) && Play(history) == Net(sent, delivered, ignore)
      && forall c :: c in received ==> received[c] == Heard(history, c)
    }

    constructor (subscribers: seq<Client>)
      requires forall i, j :: 0 <= i < j < |subscribers| ==> subscribers[i] != subscribers[j]
      ensures Valid() && this.subscribers == subscribers && sent == [] && ignore == []
      ensures channel == [] && forall c :: c in subscribers ==> c in received && received[c] == []
    {
      hide Balanced, Tagged, IsSuffix, IsRun, Play, Heard;
      this.subscribers := subscribers;
      ignore := [];
      channel := [];
      received := map c | c in subscribers :: [];
      sent := [];
      delivered := 0;
      history := [];
      new;
      NothingTagged();
      NoEvents();
      forall c | c in received ensures Balanced(received[c], sent, delivered, ignore, c) {
        NothingBalances(c);
      }
    }

    /** publishFromClient */
    method PublishFromClient(client: Client, text: string)
      requires Valid()
      modifies this
      ensures Valid() && sent == old(sent) + [Message(text, Some(client))]
      ensures ignore == old(ignore) + [PublishIgnore(client, text)] && received == old(received)
      ensures delivered == old(delivered)
      ensures channel == old(channel) + [sent[|sent| - 1]]
    {
      hide Balanced, Tagged, IsRun, Play, Heard;
      RunExtends(history, Event.Send(Message(text, Some(client))));
      history := history + [Event.Send(Message(text, Some(client)))];
      ignore := ignore + [PublishIgnore(client, text)];
      Send(Message(text, Some(client)));
      TaggedOne(text, Some(client));
      forall c | c in received ensures Balanced(received[c], sent, delivered, ignore, c) {
        OwnBalances(received[c], old(sent), delivered, old(ignore), client, text, c);
      }
    }

    /** publish, and messages from other processes. */
    method Publish(text: string)
      requires Valid()
      modifies this
      ensures Valid() && sent == old(sent) + [Message(text, None)]
      ensures ignore == old(ignore) && received == old(received) && delivered == old(delivered)
      ensures channel == old(channel) + [sent[|sent| - 1]]
    {
      hide Balanced, Tagged, IsRun, Play, Heard;
      RunExtends(history, Event.Send(Message(text, None)));
      history := history + [Event.Send(Message(text, None))];
      Send(Message(text, None));
      TaggedOne(text, None);
      forall c | c in received ensures Balanced(received[c], sent, delivered, ignore, c) {
        OtherBalances(received[c], old(sent), delivered, ignore, text, c);
      }
    }

    /** sPublish */
    method Send(m: Message)
      requires delivered <= |sent| && channel == sent[delivered..]
      modifies this`channel, this`sent
      ensures sent == old(sent) + [m] && channel == old(channel) + [m] && delivered <= |sent|
      ensures channel == sent[delivered..]
      ensures sent[..delivered] == old(sent)[..delivered]
      ensures Tagged(channel) == Tagged(old(channel)) + Tagged([m])
    {
      hide Tagged;
      TaggedAppends(channel, m);
      channel := channel + [m];
      sent := sent + [m];
    }

    /** The subscription callback: Redis delivers the next message. */
    method Deliver()
      requires Valid() && channel != []
      modifies this
      ensures Valid() && sent == old(sent) && delivered == old(delivered) + 1 && channel == old(channel)[1..]
      ensures received.Keys == old(received).Keys
      ensures var text := old(channel)[0].text; var ignored := old(ignore);
        var matched := |ignored| > 0 && ignored[0].message == text;
        && ignore == (if matched then ignored[1..] else ignored)
        && forall c :: c in received ==> received[c] == old(received)[c] + (if matched && ignored[0].client == c then [] else [text])
    {
      hide Balanced, Tagged, IsSuffix, IsRun, Play, Heard;
      DeliveryKeepsSuffix(ignore, channel);
      RunExtends(history, Event.Deliver);
      history := history + [Event.Deliver];
      var message := channel[0].text;
      channel := channel[1..];
      delivered := delivered + 1;
      var ignoreClient: Option<Client> := None;
      if |ignore| > 0 && ignore[0].message == message {
        ignoreClient := Some(ignore[0].client);
        ignore := ignore[1..];
      }
      Call(message, ignoreClient);
      forall c | c in received ensures Balanced(received[c], sent, delivered, ignore, c) {
        DeliveryBalances(old(received)[c], sent, old(delivered), old(ignore), c);
      }
    }

    /** Calls every listener but the one to be ignored. */
    method Call(message: string, ignoreClient: Option<Client>)
      requires forall i, j :: 0 <= i < j < |subscribers| ==> subscribers[i] != subscribers[j]
      requires forall c :: c in received <==> c in subscribers
      modifies this`received
      ensures forall c :: c in received <==> c in subscribers
      ensures forall c :: c in received ==> received[c] == old(received)[c] + (if ignoreClient == Some(c) then [] else [message])
    {
      for i := 0 to |subscribers|
        invariant forall c :: c in received <==> c in subscribers
        invariant forall c :: c in received && c !in subscribers[..i] ==> received[c] == old(received)[c]
        invariant forall c :: c in subscribers[..i] ==>
          received[c] == old(received)[c] + (if ignoreClient == Some(c) then [] else [message])
      {
        var subscriber := subscribers[i];
        if Some(subscriber) != ignoreClient {
          received := received[subscriber := received[subscriber] + [message]];
        }
      }
    }

    /**
     * Once everything was delivered, nothing is left to ignore, and each subscriber has received exactly
     * the texts of all others, as often as they were sent, whoever else sends the same texts.
     */
    lemma Settled(c: Client)
      requires Valid() && channel == [] && c in subscribers
      ensures ignore == [] && multiset(received[c]) == multiset(ByIdentity(sent, c))
    {
      hide Balanced, ByIdentity, IsRun, Play, Heard;
      AllDelivered(received[c], sent, c);
    }

    /** Also in the order in which they were sent, whenever the messages keep their order in all runs. */
    lemma SettledInOrder(c: Client)
      requires Valid() && channel == [] && c in subscribers && KeepsOrder(sent)
      ensures received[c] == ByIdentity(sent, c)
    {
      hide Balanced, ByIdentity, IsRun, Play, Heard, KeepsOrder, Tagged, IsSuffix;
      OrderIsKept(history, c);
    }
  }

  /**
   * Without that, the order is another matter: a message of the same text from elsewhere is dropped in place
   * of the subscriber's own, which then arrives later than the other would have.
   */
  method OrderMayDiffer(x: string, y: string) returns (messages: seq<Message>, heard: seq<string>)
    requires x != y
    ensures heard == [y, x] && ByIdentity(messages, 0) == [x, y]
    ensures !KeepsOrder(messages)
  {
    hide Balanced, Tagged, IsSuffix, SubscriptionDelegate.Valid, ByIdentity, IsRun, Play, Heard, KeepsOrder;
    var a, b, c := Message(x, None), Message(y, None), Message(x, Some(0));
    var d := ThreeOnTheWay(x, y);
    d.Deliver();
    assert d.channel == [b, c] && d.ignore == [] && d.received[0] == [];
    d.Deliver();
    assert d.channel == [c] && d.ignore == [] && d.received[0] == [y];
    d.Deliver();
    messages := [a, b, c];
    heard := d.received[0];
    ThreeByIdentity(a, b, c);
  }

  method ThreeOnTheWay(x: string, y: string) returns (d: SubscriptionDelegate)
    ensures fresh(d) && d.Valid() && 0 in d.received && d.received[0] == []
    ensures d.channel == [Message(x, None), Message(y, None), Message(x, Some(0))] && d.ignore == [PublishIgnore(0, x)]
  {
    hide SubscriptionDelegate.Valid;
    d := new SubscriptionDelegate([0]);
    d.Publish(x);
    d.Publish(y);
    d.PublishFromClient(0, x);
  }

  lemma ThreeByIdentity(a: Message, b: Message, c: Message)
    requires a.sender == None && b.sender == None && c.sender == Some(0)
    requires a.text == c.text != b.text
    ensures ByIdentity([a, b, c], 0) == [a.text, b.text] && !KeepsOrder([a, b, c])
  {
    assert [a, b, c][..2] == [a, b] && [a, b][..1] == [a] && [a][..0] == [];
    assert ByIdentity([a], 0) == [a.text];
    assert Breaks([a, b, c], 0, 1, 2);
  }
}

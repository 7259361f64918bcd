/**
 * Message delivery: the client polls an ordered server one message at a time over a link that loses requests and
 * replies, stores what it gets, and acknowledges it.
 */
module RchatDelivery {
  import opened Wrappers

  const CONTACTS_MAX := 4
  const HISTORY_MAX := 8

  /** A message on the server; `valid` says whether its signature and its payload check out. */
  datatype Message = Message(sender: string, text: string, valid: bool)

  /** What happens to an exchange: it works, its request or its reply is lost, or the answer is an error. */
  datatype Fault = Clean | RequestLost | ReplyLost | Rejected | Garbled

  /** Before an exchange new messages may arrive at the server. */
  datatype Event = Event(arrivals: seq<Message>, fault: Fault)

  /** An ordered server gives the first message after a cursor, or an empty page that leaves the cursor alone. */
  datatype Page = Empty(cursor: nat) | One(id: nat, message: Message, cursor: nat)

  function PageAfter(log: seq<Message>, cursor: nat): Page {
    if cursor < |log| then One(cursor, log[cursor], cursor + 1) else Empty(cursor)
  }

  datatype Pending = Pending(id: nat, cursor: nat)

  datatype Contact = Contact(id: string, messages: seq<string>)

  /** The last n elements. */
  function Last<T>(s: seq<T>, n: nat): (r: seq<T>)
    ensures |r| == if |s| < n then |s| else n
  {
    if |s| <= n then s else s[|s| - n..]
  }

  lemma LastAppend<T>(s: seq<T>, x: T, n: nat)
    requires n > 0
    ensures Last(s + [x], n) == Last(Last(s, n) + [x], n)
  {
  }

  /** What a sender has sent among some messages, in order. */
  function Inbox(log: seq<Message>, sender: string): seq<string> {
    if log == [] then [] else
    var k := |log| - 1;
    Inbox(log[..k], sender) + if log[k].sender == sender then [log[k].text] else []
  }

  lemma {:induction false} InboxOfStranger(log: seq<Message>, sender: string)
    requires forall i :: 0 <= i < |log| ==> log[i].sender != sender
    ensures Inbox(log, sender) == []
  {
    if log != [] {
      InboxOfStranger(log[..|log| - 1], sender);
    }
  }

  lemma InboxNext(log: seq<Message>, n: nat, sender: string)
    requires n < |log|
    ensures Inbox(log[..n + 1], sender)
         == Inbox(log[..n], sender) + if log[n].sender == sender then [log[n].text] else []
  {
    assert log[..n + 1][..n] == log[..n];
  }

  predicate Knows(contacts: seq<Contact>, id: string) {
    exists k :: 0 <= k < |contacts| && contacts[k].id == id
  }

  /** The contacts show the messages received: everyone who sent one is listed once, and each history is the end of
      what its sender has sent. */
  predicate Listed(contacts: seq<Contact>, received: seq<Message>) {
    && |contacts| <= CONTACTS_MAX
    && (forall i, j :: 0 <= i < j < |contacts| ==> contacts[i].id != contacts[j].id)
    && (forall k :: 0 <= k < |contacts| ==> contacts[k].messages == Last(Inbox(received, contacts[k].id), HISTORY_MAX))
    && (forall i :: 0 <= i < |received| ==> Knows(contacts, received[i].sender))
  }

  /** The names in a list of contacts. */
  function Ids(contacts: seq<Contact>): (r: seq<string>)
    ensures |r| == |contacts| && forall k :: 0 <= k < |r| ==> r[k] == contacts[k].id
  {
    seq(|contacts|, k requires 0 <= k < |contacts| => contacts[k].id)
  }

  /** A message gets past a client that knows these senders: it verifies, and its sender is known or can be added. */
  predicate Passable(ids: seq<string>, m: Message) {
    m.valid && (m.sender in ids || |ids| < CONTACTS_MAX)
  }

  function WithSender(ids: seq<string>, sender: string): seq<string> {
    if sender in ids then ids else ids + [sender]
  }

  /** How many of the messages from a position on get past, of at most n: up to the first that does not. */
  function Passed(ids: seq<string>, log: seq<Message>, at: nat, n: nat): (r: nat)
    ensures r <= n && (at <= |log| ==> at + r <= |log|)
    decreases n
  {
    if n == 0 || at >= |log| || !Passable(ids, log[at]) then 0
    else 1 + Passed(WithSender(ids, log[at].sender), log, at + 1, n - 1)
  }

  /** The senders of some messages. */
  function Senders(log: seq<Message>): set<string> {
    set i | 0 <= i < |log| :: log[i].sender
  }

  /** The first n messages from a position on can all get past: they verify, and with their senders at most four are
      known. */
  predicate AllPass(ids: seq<string>, log: seq<Message>, at: nat, n: nat)
    requires at + n <= |log|
  {
    && (forall i :: at <= i < at + n ==> log[i].valid)
    && (Senders(log[at..at + n]) <= Listing(ids) || |Listing(ids) + Senders(log[at..at + n])| <= 4)
  }

  function Listing(ids: seq<string>): set<string> {
    set x | x in ids
  }

  /** The messages that get past are the longest stretch in which all messages verify and no fifth sender appears. */
  lemma {:induction false} PassedIsLongest(ids: seq<string>, log: seq<Message>, at: nat, n: nat, k: nat)
    requires (forall i, j :: 0 <= i < j < |ids| ==> ids[i] != ids[j])
    requires k <= n && at + k <= |log|
    ensures AllPass(ids, log, at, k) <==> k <= Passed(ids, log, at, n)
    decreases k
  {
    hide Passable, WithSender;
    if k == 0 {
      assert log[at..at] == [];
    } else {
      var m := log[at];
      AllPassFirst(ids, log, at, k);
      if Passable(ids, m) {
        WithSenderDistinct(ids, m.sender);
        PassedIsLongest(WithSender(ids, m.sender), log, at + 1, n - 1, k - 1);
      }
    }
  }

  lemma WithSenderDistinct(ids: seq<string>, sender: string)
    requires forall i, j :: 0 <= i < j < |ids| ==> ids[i] != ids[j]
    ensures var now := WithSender(ids, sender); forall i, j :: 0 <= i < j < |now| ==> now[i] != now[j]
  {
  }

  lemma {:induction false} ListingSize(ids: seq<string>)
    requires forall i, j :: 0 <= i < j < |ids| ==> ids[i] != ids[j]
    ensures |Listing(ids)| == |ids|
  {
    if ids != [] {
      var k := |ids| - 1;
      ListingSize(ids[..k]);
      assert Listing(ids) == Listing(ids[..k]) + {ids[k]};
      assert ids[k] !in ids[..k];
    }
  }

  /** All of k messages pass if the first one does and, with its sender known, the others do. */
  lemma AllPassFirst(ids: seq<string>, log: seq<Message>, at: nat, k: nat)
    requires forall i, j :: 0 <= i < j < |ids| ==> ids[i] != ids[j]
    requires k > 0 && at + k <= |log|
    ensures AllPass(ids, log, at, k) <==>
            Passable(ids, log[at]) && AllPass(WithSender(ids, log[at].sender), log, at + 1, k - 1)
  {
    hide Senders, Listing;
    var m, rest := log[at], log[at + 1..at + k];
    ListingSize(ids);
    ListingWith(ids, m.sender);
    assert log[at..at + k] == [m] + rest;
    SendersFirst(m, rest);
    FewStay(Listing(ids), m.sender, Senders(rest));
    assert (forall i :: at <= i < at + k ==> log[i].valid) <==>
           m.valid && forall i :: at + 1 <= i < at + k ==> log[i].valid;
  }

  lemma ListingWith(ids: seq<string>, x: string)
    ensures Listing(WithSender(ids, x)) == Listing(ids) + {x} && (x in Listing(ids) <==> x in ids)
  {
  }

  /** At most four are known with x and others, exactly if there is room for x and then for the others. */
  lemma FewStay(known: set<string>, x: string, others: set<string>)
    ensures {x} + others <= known || |known + ({x} + others)| <= 4 <==>
            (x in known || |known| < 4) && (others <= known + {x} || |known + {x} + others| <= 4)
  {
    var now, all := known + {x}, known + ({x} + others);
    assert now + others == all;
    SubsetSize(now, all);
    if x in known {
      assert now == known;
      assert {x} + others <= known <==> others <= known;
    } else {
      assert |now| == |known| + 1;
      assert !({x} + others <= known);
      if others <= now {
        assert all == now;
      }
    }
  }

  lemma SendersFirst(m: Message, rest: seq<Message>)
    ensures Senders([m] + rest) == {m.sender} + Senders(rest)
  {
    var log := [m] + rest;
    assert log[0] == m && forall i :: 0 <= i < |rest| ==> log[i + 1] == rest[i];
    forall x | x in Senders(rest)
      ensures x in Senders(log)
    {
      var i :| 0 <= i < |rest| && rest[i].sender == x;
      assert log[i + 1].sender == x;
    }
  }

  lemma {:induction false} SubsetSize<T>(a: set<T>, b: set<T>)
    requires a <= b
    ensures |a| <= |b| && (|a| == |b| ==> a == b)
    decreases a
  {
    if a != {} {
      var x :| x in a;
      SubsetSize(a - {x}, b - {x});
    }
  }

  /** The first n positions. */
  function UpTo(n: nat): (r: seq<nat>)
    ensures |r| == n && forall i :: 0 <= i < n ==> r[i] == i
  {
    seq(n, i => i)
  }

  /** How a refresh ends: nothing more to fetch, eight messages fetched, no room for a new sender, a message stored
      whose acknowledgement failed, or the error code of a failed exchange. */
  datatype Refreshed = CaughtUp | BatchDone | ListFull | AckOutstanding(code: int) | Failed(code: int)

  class Session {
    // The server.
    var log: seq<Message>
    var acked: set<nat>
    // The profile on the network side.
    var cursor: nat
    var pending: Option<Pending>
    // The profile on the display side.
    var ackPending: bool
    var contacts: seq<Contact>
    /** The positions of the messages stored, in the order of storing. */
    ghost var stored: seq<nat>

    /** Everything before the cursor is stored and nothing else, except a message whose acknowledgement is
        outstanding; at most one message is pending, and it is the one the cursor points at. */
    ghost predicate Valid()
      reads this
    {
      && cursor <= |log|
      && (pending.Some? ==> cursor < |log| && log[cursor].valid && pending == Some(Pending(cursor, cursor + 1)))
      && (ackPending ==> pending.Some?)
      && Count() <= |log|
      && stored == UpTo(Count())
      && (forall id :: id in acked ==> id < Count())
      && Listed(contacts, log[..Count()])
    }

    /** How many messages are stored. */
    ghost function Count(): nat
      reads this
    {
      if ackPending then cursor + 1 else cursor
    }

    constructor ()
      ensures Valid() && log == [] && cursor == 0 && pending == None && contacts == []
    {
      log, acked, cursor, pending := [], {}, 0, None;
      ackPending, contacts, stored := false, [], [];
    }

    /** New messages reach the server at any time. */
    method Arrive(messages: seq<Message>)
      requires Valid()
      modifies `log
      ensures Valid() && log == old(log) + messages
    {
      var n := |log|;
      log := log + messages;
      assert log[..Count()] == old(log)[..Count()];
      assert forall i :: 0 <= i < n ==> log[i] == old(log)[i];
    }

    /** Acknowledging the pending message moves the cursor past it, but only on a clean answer. The server may have
        taken note of an acknowledgement whose answer was lost; it is sent again later, to no effect. */
    method AcknowledgePending(event: Event) returns (r: int)
      requires Valid()
      modifies `log, `acked, `cursor, `pending
      ensures r == 0 <==> old(pending).None? || event.fault == Clean
      ensures pending == if r == 0 then None else old(pending)
      ensures cursor == if r == 0 && old(pending).Some? then old(cursor) + 1 else old(cursor)
      ensures old(log) <= log && (old(pending).None? ==> log == old(log))
      ensures old(acked) <= acked <= if old(pending).Some? then old(acked) + {old(cursor)} else old(acked)
      ensures r == 0 && old(pending).Some? ==> old(cursor) in acked
    {
      if pending.None? {
        return 0;
      }
      log := log + event.arrivals;
      if event.fault == Clean || event.fault == ReplyLost || event.fault == Garbled {
        acked := acked + {pending.value.id};
      }
      match event.fault {
        case RequestLost => return -4;
        case ReplyLost => return -4;
        case Garbled => return -4;
        case Rejected => return -5;
        case Clean =>
          cursor := pending.value.cursor;
          pending := None;
          return 0;
      }
    }

    /** Polling asks for the message after the cursor. It leaves the cursor where it is; a verified message becomes
        pending, and until it is acknowledged every poll is refused. */
    method Poll(event: Event) returns (r: int, sender: string, text: string)
      requires Valid()
      modifies `log, `cursor, `pending
      ensures Valid() && old(log) <= log && cursor == old(cursor)
      ensures old(pending).Some? ==> r == -7 && log == old(log) && pending == old(pending)
      ensures r == 0 ==> old(pending).None? && pending == Some(Pending(cursor, cursor + 1))
      ensures r == 0 ==> cursor < |log| && sender == log[cursor].sender && text == log[cursor].text
      ensures r != 0 ==> pending == old(pending)
      ensures r == 1 ==> cursor == |log|
      ensures r == -7 <==> old(pending).Some?
      ensures event.fault == Clean && old(pending).None? ==>
                r == if cursor == |log| then 1 else if log[cursor].valid then 0 else -6
      ensures r == 0 ==> log[cursor].valid
    {
      sender, text := "", "";
      if pending.Some? {
        return -7, sender, text;
      }
      Arrive(event.arrivals);
      match event.fault {
        case RequestLost => return -4, sender, text;
        case ReplyLost => return -4, sender, text;
        case Rejected => return -5, sender, text;
        case Garbled => return -6, sender, text;
        case Clean =>
      }
      var page := PageAfter(log, cursor);
      match page {
        case Empty(next) =>
          cursor := next;
          return 1, sender, text;
        case One(id, message, next) =>
          if !message.valid {
            return -6, sender, text;
          }
          pending := Some(Pending(id, next));
          return 0, message.sender, message.text;
      }
    }

    /** The place of a sender in the list of contacts, where it is added if there is room. */
    method ContactOf(sender: string) returns (k: int)
      requires Valid()
      modifies `contacts
      ensures Valid()
      ensures k == -1 ==> contacts == old(contacts)
      ensures k != -1 ==> 0 <= k < |contacts| && contacts[k].id == sender
      ensures k == -1 <==> sender !in Ids(old(contacts)) && |old(contacts)| == CONTACTS_MAX
      ensures k != -1 ==> Ids(contacts) == WithSender(Ids(old(contacts)), sender)
      ensures |old(contacts)| <= CONTACTS_MAX
    {
      hide Listed;
      for i := 0 to |contacts|
        invariant forall j :: 0 <= j < i ==> contacts[j].id != sender
      {
        if contacts[i].id == sender {
          AtMostFour(contacts, log[..Count()]);
          assert Ids(contacts)[i] == sender;
          return i;
        }
      }
      AtMostFour(contacts, log[..Count()]);
      if |contacts| == CONTACTS_MAX {
        return -1;
      }
      NewContact(contacts, log[..Count()], sender);
      contacts := contacts + [Contact(sender, [])];
      return |contacts| - 1;
    }

    /** Appending to a history of at most eight messages drops the oldest when it is full. */
    method AppendMessage(k: nat, text: string)
      requires k < |contacts| && |contacts[k].messages| <= HISTORY_MAX
      modifies `contacts
      ensures contacts == old(contacts)[k := Contact(old(contacts)[k].id,
                                                     Last(old(contacts)[k].messages + [text], HISTORY_MAX))]
    {
      var c := contacts[k];
      if |c.messages| == HISTORY_MAX {
        c := c.(messages := c.messages[1..]);
      }
      assert c.messages + [text] == Last(contacts[k].messages + [text], HISTORY_MAX);
      contacts := contacts[k := c.(messages := c.messages + [text])];
    }

    /** A verified message that waits for local storage is stored; from then on its acknowledgement is outstanding. */
    method StorePending(sender: string, text: string) returns (ok: bool)
      requires Valid() && pending.Some? && !ackPending && sender == log[cursor].sender && text == log[cursor].text
      modifies `contacts, `ackPending, `stored
      ensures Valid()
      ensures ok ==> ackPending && stored == old(stored) + [cursor]
      ensures !ok ==> !ackPending && stored == old(stored) && contacts == old(contacts)
      ensures !ok <==> sender !in Ids(old(contacts)) && |old(contacts)| == CONTACTS_MAX
      ensures ok ==> Ids(contacts) == WithSender(Ids(old(contacts)), sender)
      ensures |old(contacts)| <= CONTACTS_MAX
    {
      hide Listed;
      var k := ContactOf(sender);
      if k == -1 {
        return false;
      }
      StoredOne(contacts, log, cursor, k);
      ghost var ids := Ids(contacts);
      AppendMessage(k, text);
      assert Ids(contacts) == ids;
      ackPending := true;
      stored := stored + [cursor];
      assert UpTo(cursor + 1) == UpTo(cursor) + [cursor];
      return true;
    }

    /** Acknowledging a stored message: the cursor moves past it exactly when the answer is clean. */
    method SettleStored(event: Event) returns (code: int)
      requires Valid() && ackPending
      modifies `log, `acked, `cursor, `pending, `ackPending
      ensures Valid() && old(log) <= log && old(acked) <= acked
      ensures code == 0 <==> event.fault == Clean
      ensures code == 0 ==> pending.None? && !ackPending && cursor == old(cursor) + 1 && old(cursor) in acked
      ensures code != 0 ==> ackPending && cursor == old(cursor)
    {
      ghost var before, n := log, Count();
      code := AcknowledgePending(event);
      GrowsOnly(before, log, n);
      if code == 0 {
        ackPending := false;
      }
    }

    /** One round of a refresh: fetch a message, store it and acknowledge it. No result means that the refresh goes on. */
    method FetchOne(first: Event, second: Event) returns (r: Option<Refreshed>)
      requires Valid() && !ackPending
      modifies this
      ensures Valid()
      ensures old(log) <= log && old(stored) <= stored && old(acked) <= acked && old(cursor) <= cursor
      ensures r == Some(Failed(-7)) <==> old(Wedged())
      ensures old(Wedged()) ==> Wedged()
      ensures r == Some(CaughtUp) ==> cursor == |log| && !ackPending
      ensures r == Some(ListFull) ==> Wedged()
      ensures r.Some? ==> r.value != BatchDone && (r.value.AckOutstanding? <==> ackPending)
      ensures old(Blocked()) ==> r.Some? && Blocked() && stored == old(stored) && Ids(contacts) == Ids(old(contacts))
      ensures r.None? ==>
                && !ackPending && pending.None? && cursor == old(cursor) + 1 <= |log|
                && Passable(Ids(old(contacts)), log[old(cursor)])
                && Ids(contacts) == WithSender(Ids(old(contacts)), log[old(cursor)].sender)
      ensures first.fault == Clean && second.fault == Clean && !old(Wedged()) && r.Some? ==>
                && !ackPending && cursor == old(cursor) && Ids(contacts) == Ids(old(contacts))
                && (cursor == |log| || !Passable(Ids(contacts), log[cursor]))
                && r.value == if cursor == |log| then CaughtUp else if !log[cursor].valid then Failed(-6) else ListFull
    {
      hide Last, Inbox, Knows, Listed, UpTo, Ids, WithSender;
      var code, sender, text := Poll(first);
      if code == 1 {
        return Some(CaughtUp);
      }
      if code != 0 {
        return Some(Failed(code));
      }
      var ok := StorePending(sender, text);
      if !ok {
        return Some(ListFull);
      }
      code := SettleStored(second);
      if code != 0 {
        return Some(AckOutstanding(code));
      }
      return None;
    }

    /** The rounds of a refresh, at most eight, with the events from position `next` on. */
    method FetchBatch(script: seq<Event>, next: nat) returns (r: Refreshed)
      requires Valid() && !ackPending && next <= 1
      modifies this
      ensures Valid()
      ensures old(log) <= log && old(stored) <= stored && old(acked) <= acked && old(cursor) <= cursor
      ensures r == CaughtUp ==> stored == UpTo(|log|) && !ackPending
      ensures r.AckOutstanding? ==> ackPending
      ensures r == ListFull ==> Wedged()
      ensures r == Failed(-7) <==> old(Wedged())
      ensures old(Wedged()) ==> Wedged()
      ensures old(Blocked()) ==> Blocked() && stored == old(stored) && Ids(contacts) == Ids(old(contacts))
      ensures Lossless(script) && !old(Wedged()) ==>
                var from := old(cursor);
                var n := Passed(Ids(old(contacts)), log, from, HISTORY_MAX);
                && cursor == from + n && !ackPending && stored == UpTo(from + n)
                && r == if n == HISTORY_MAX then BatchDone else if cursor == |log| then CaughtUp
                        else if !log[cursor].valid then Failed(-6) else ListFull
      ensures Lossless(script) && old(cursor) < |old(log)| ==> (stored == old(stored) <==> old(Blocked()))
    {
      hide Last, Inbox, Knows, Listed, Passed, UpTo, Ids, Ran, WithSender, Passable, EventAt;
      ghost var from := cursor;
      ghost var ids := Ids(contacts);
      var at := next;
      RanNone(ids, log, from);
      for count := 0 to HISTORY_MAX
        invariant Valid() && !ackPending && at == next + 2 * count
        invariant count > 0 ==> pending.None? && !old(Blocked())
        invariant pending.Some? <==> old(Wedged())
        invariant old(Blocked()) ==> Blocked() && stored == old(stored) && Ids(contacts) == ids
        invariant old(log) <= log && old(stored) <= stored && old(acked) <= acked && old(cursor) <= cursor
        invariant cursor == from + count && Ran(ids, log, from, count, Ids(contacts))
      {
        ghost var before, known := log, Ids(contacts);
        var end := FetchOne(EventAt(script, at), EventAt(script, at + 1));
        at := at + 2;
        RanOn(ids, before, log, from, count, known);
        if end.Some? {
          RanStops(ids, log, from, count, known, HISTORY_MAX);
          RanNone(ids, log, from);
          RanStops(ids, log, from, 0, ids, HISTORY_MAX);
          return end.value;
        }
        RanNext(ids, log, from, count, known);
      }
      RanStops(ids, log, from, HISTORY_MAX, Ids(contacts), HISTORY_MAX);
      return BatchDone;
    }

    /** A refresh: acknowledge what is stored, then fetch, store and acknowledge up to eight messages. Whatever the
        link does, everything before the cursor stays stored, nothing is stored twice, and at most one message is
        pending. Without losses it stores exactly the messages that get past, up to eight. A message that does not
        get past holds up all later ones for good. */
    method Refresh(script: seq<Event>) returns (r: Refreshed)
      requires Valid()
      modifies this
      ensures Valid()
      ensures old(log) <= log && old(stored) <= stored && old(acked) <= acked && old(cursor) <= cursor
      ensures r == CaughtUp ==> stored == UpTo(|log|) && !ackPending
      ensures r.AckOutstanding? ==> ackPending
      ensures r == ListFull ==> Wedged()
      ensures r == Failed(-7) <==> old(Wedged())
      ensures old(Wedged()) ==> Wedged()
      ensures old(Blocked()) ==> Blocked() && stored == old(stored) && Ids(contacts) == Ids(old(contacts))
      ensures Lossless(script) && !old(Wedged()) ==>
                var from := old(Count());
                var n := Passed(Ids(old(contacts)), log, from, HISTORY_MAX);
                && cursor == from + n && !ackPending && stored == UpTo(from + n)
                && r == if n == HISTORY_MAX then BatchDone else if cursor == |log| then CaughtUp
                        else if !log[cursor].valid then Failed(-6) else ListFull
      ensures Lossless(script) && old(Count()) < |old(log)| ==> (stored == old(stored) <==> old(Blocked()))
    {
      hide Last, Inbox, Knows, Listed, Passed, UpTo, Ids, Passable, EventAt;
      var next := 0;
      if ackPending {
        ghost var known := log;
        var code := SettleStored(EventAt(script, next));
        next := next + 1;
        if code != 0 {
          return AckOutstanding(code);
        }
        assert Count() == old(Count()) && forall i :: 0 <= i < |known| ==> log[i] == known[i];
      }
      r := FetchBatch(script, next);
    }

    /** A message is pending that was never stored. */
    ghost predicate Wedged()
      reads this
    {
      pending.Some? && !ackPending
    }

    /** The next message does not get past: it is pending without having been stored, or it does not verify, or its
        sender is unknown and the list is full. */
    ghost predicate Blocked()
      reads this
    {
      Wedged() || (Count() < |log| && !Passable(Ids(contacts), log[Count()]))
    }
  }

  /** No exchange of a refresh fails. */
  predicate Lossless(script: seq<Event>) {
    forall i :: 0 <= i <= 2 * HISTORY_MAX ==> EventAt(script, i).fault == Clean
  }

  function EventAt(script: seq<Event>, i: nat): Event {
    if i < |script| then script[i] else Event([], RequestLost)
  }

  /** Who is known after n messages. */
  function IdsAfter(ids: seq<string>, log: seq<Message>, at: nat, n: nat): seq<string>
    requires at + n <= |log|
    decreases n
  {
    if n == 0 then ids else IdsAfter(WithSender(ids, log[at].sender), log, at + 1, n - 1)
  }

  /** The first n messages from a position get past, and then these senders are known. */
  predicate Ran(ids: seq<string>, log: seq<Message>, at: nat, n: nat, now: seq<string>) {
    at + n <= |log| && Passed(ids, log, at, n) == n && now == IdsAfter(ids, log, at, n)
  }

  lemma RanNone(ids: seq<string>, log: seq<Message>, at: nat)
    requires at <= |log|
    ensures Ran(ids, log, at, 0, ids)
  {
  }

  /** Messages that arrive later change nothing about those that got past. */
  lemma {:induction false} RanOn(ids: seq<string>, log: seq<Message>, more: seq<Message>, at: nat, n: nat, now: seq<string>)
    requires Ran(ids, log, at, n, now) && log <= more
    ensures Ran(ids, more, at, n, now)
    decreases n
  {
    if n > 0 {
      RanOn(WithSender(ids, log[at].sender), log, more, at + 1, n - 1, now);
    }
  }

  lemma {:induction false} RanNext(ids: seq<string>, log: seq<Message>, at: nat, n: nat, now: seq<string>)
    requires Ran(ids, log, at, n, now) && at + n < |log| && Passable(now, log[at + n])
    ensures Ran(ids, log, at, n + 1, WithSender(now, log[at + n].sender))
    decreases n
  {
    hide Ran, Passable, WithSender;
    if n == 0 {
      RanFirst(ids, log, at, 0, now);
      RanNone(WithSender(now, log[at].sender), log, at + 1);
    } else {
      RanFirst(ids, log, at, n, now);
      RanNext(WithSender(ids, log[at].sender), log, at + 1, n - 1, now);
    }
    RanLonger(ids, log, at, n, WithSender(now, log[at + n].sender));
  }

  /** The first of the messages that got past, and the others. */
  lemma RanFirst(ids: seq<string>, log: seq<Message>, at: nat, n: nat, now: seq<string>)
    requires Ran(ids, log, at, n, now)
    ensures n == 0 ==> now == ids
    ensures n > 0 ==> at < |log| && Passable(ids, log[at])
                      && Ran(WithSender(ids, log[at].sender), log, at + 1, n - 1, now)
  {
    hide Passable, WithSender;
  }

  lemma RanLonger(ids: seq<string>, log: seq<Message>, at: nat, n: nat, now: seq<string>)
    requires at < |log| && Passable(ids, log[at]) && Ran(WithSender(ids, log[at].sender), log, at + 1, n, now)
    ensures Ran(ids, log, at, n + 1, now)
  {
    hide Passable, WithSender;
  }

  /** After n messages got past, the rest of a batch gets as far as it does from there. */
  lemma {:induction false} RanStops(ids: seq<string>, log: seq<Message>, at: nat, n: nat, now: seq<string>, all: nat)
    requires Ran(ids, log, at, n, now) && n <= all
    ensures Passed(ids, log, at, all) == n + Passed(now, log, at + n, all - n)
    ensures n < all && (at + n == |log| || !Passable(now, log[at + n])) ==> Passed(ids, log, at, all) == n
    ensures n < all && at + n < |log| && Passable(now, log[at + n]) ==> Passed(ids, log, at, all) > n
    ensures n == all ==> Passed(ids, log, at, all) == n
    decreases n
  {
    hide Passable, WithSender;
    if n > 0 {
      RanFirst(ids, log, at, n, now);
      RanStops(WithSender(ids, log[at].sender), log, at + 1, n - 1, now, all - 1);
    }
  }

  lemma AtMostFour(contacts: seq<Contact>, received: seq<Message>)
    requires Listed(contacts, received)
    ensures |contacts| <= CONTACTS_MAX
  {
  }

  /** A sender who was not listed has sent nothing before, so an empty history is right. */
  lemma NewContact(contacts: seq<Contact>, received: seq<Message>, sender: string)
    requires Listed(contacts, received) && |contacts| < CONTACTS_MAX
    requires forall j :: 0 <= j < |contacts| ==> contacts[j].id != sender
    ensures Listed(contacts + [Contact(sender, [])], received)
  {
    var now := contacts + [Contact(sender, [])];
    forall i | 0 <= i < |received|
      ensures received[i].sender != sender && Knows(now, received[i].sender)
    {
      assert Knows(contacts, received[i].sender);
      var k :| 0 <= k < |contacts| && contacts[k].id == received[i].sender;
      assert now[k] == contacts[k];
    }
    InboxOfStranger(received, sender);
  }

  /** Messages that arrive later change nothing about those stored. */
  lemma GrowsOnly(log: seq<Message>, more: seq<Message>, n: nat)
    requires log <= more && n <= |log|
    ensures more[..n] == log[..n]
    ensures forall i :: 0 <= i < n ==> more[i] == log[i]
  {
    assert log == more[..|log|];
  }

  /** Storing one more message: every history is again the end of what its sender has sent. */
  lemma StoredOne(contacts: seq<Contact>, log: seq<Message>, n: nat, k: nat)
    requires n < |log| && k < |contacts| && contacts[k].id == log[n].sender && Listed(contacts, log[..n])
    ensures |contacts[k].messages| <= HISTORY_MAX
    ensures Listed(contacts[k := Contact(contacts[k].id, Last(contacts[k].messages + [log[n].text], HISTORY_MAX))],
                   log[..n + 1])
  {
    hide Inbox;
    var now := contacts[k := Contact(contacts[k].id, Last(contacts[k].messages + [log[n].text], HISTORY_MAX))];
    forall c | 0 <= c < |now|
      ensures now[c].messages == Last(Inbox(log[..n + 1], now[c].id), HISTORY_MAX)
    {
      InboxNext(log, n, now[c].id);
      LastAppend(Inbox(log[..n], now[c].id), log[n].text, HISTORY_MAX);
    }
    SendersKnown(contacts, now, log, n, k);
  }

  /** Everyone known before, and the sender of the next message, is known after. */
  lemma SendersKnown(contacts: seq<Contact>, now: seq<Contact>, log: seq<Message>, n: nat, k: nat)
    requires n < |log| && k < |contacts| == |now| && contacts[k].id == log[n].sender && Listed(contacts, log[..n])
    requires forall c :: 0 <= c < |now| ==> now[c].id == contacts[c].id
    ensures var received := log[..n + 1]; forall i :: 0 <= i < |received| ==> Knows(now, received[i].sender)
  {
    hide Inbox, Last;
    var received := log[..n + 1];
    forall i | 0 <= i < |received|
      ensures Knows(now, received[i].sender)
    {
      if i < n {
        assert Knows(contacts, log[..n][i].sender);
        var c :| 0 <= c < |contacts| && contacts[c].id == log[i].sender;
        assert now[c].id == contacts[c].id;
      } else {
        assert now[k].id == log[n].sender;
      }
    }
  }

  // Two ways of getting stuck.

  function CleanScript(): seq<Event> {
    seq(2 * HISTORY_MAX + 1, _ => Event([], Clean))
  }

  /** Messages of five senders. */
  function FiveSenders(): seq<Message> {
    [Message("a", "", true), Message("b", "", true), Message("c", "", true), Message("d", "", true),
     Message("e", "", true)]
  }

  lemma FourPass(log: seq<Message>)
    requires FiveSenders() <= log
    ensures Passed([], log, 0, HISTORY_MAX) == 4
  {
    assert forall i :: 0 <= i < 5 ==> log[i] == FiveSenders()[i];
    assert Passed(["a", "b", "c", "d"], log, 4, 4) == 0;
    assert Passed(["a", "b", "c"], log, 3, 5) == 1;
    assert Passed(["a", "b"], log, 2, 6) == 2;
    assert Passed(["a"], log, 1, 7) == 3;
  }

  /** A fifth sender, with the list of contacts full, holds up delivery: the refresh after the one that finds no
      room fails although nothing is lost, and so does every later one. */
  method StuckOnStranger() returns (s: Session, first: Refreshed, second: Refreshed)
    ensures s.Valid() && FiveSenders() <= s.log && s.stored == UpTo(4) && s.Wedged()
    ensures first == ListFull && second == Failed(-7)
  {
    hide Passed, UpTo, Ids, FiveSenders, Listed, Lossless, CleanScript;
    CleanIsLossless();
    s := new Session();
    s.Arrive(FiveSenders());
    assert Ids([]) == [];
    ghost var before := s.log;
    first := s.Refresh(CleanScript());
    assert FiveSenders() <= before <= s.log;
    FourPass(s.log);
    FifthIsStranger();
    assert before[4] == s.log[4];
    second := s.Refresh(CleanScript());
  }

  lemma CleanIsLossless()
    ensures Lossless(CleanScript())
  {
  }

  lemma FifthIsStranger()
    ensures |FiveSenders()| == 5 && FiveSenders()[4].valid
  {
  }

  /** A message that does not verify holds up delivery, too: the good one behind it is never stored. */
  method StuckOnInvalid() returns (s: Session, first: Refreshed, second: Refreshed)
    ensures s.Valid() && [Message("a", "", false), Message("b", "", true)] <= s.log && s.stored == [] && s.Blocked()
    ensures first == Failed(-6) && second == Failed(-6)
  {
    hide Ids, Listed, Lossless, CleanScript;
    CleanIsLossless();
    s := new Session();
    s.Arrive([Message("a", "", false), Message("b", "", true)]);
    ghost var before := s.log;
    first := s.Refresh(CleanScript());
    assert before[0] == s.log[0];
    ghost var between := s.log;
    second := s.Refresh(CleanScript());
    assert between[0] == s.log[0];
  }

  /** Nine messages of one sender. */
  function NineMessages(): seq<Message> {
    seq(9, _ => Message("a", "", true))
  }

  /** A refresh ends after eight messages, and the history of their sender has these eight. */
  method EightAtOnce() returns (s: Session, first: Refreshed)
    ensures s.Valid() && NineMessages() <= s.log && s.stored == UpTo(8) && first == BatchDone
    ensures exists c :: c in s.contacts && c.id == "a" && |c.messages| == 8
  {
    hide UpTo, Ids, Listed, Lossless, CleanScript, Passed, NineMessages;
    CleanIsLossless();
    s := new Session();
    s.Arrive(NineMessages());
    assert Ids([]) == [];
    ghost var before := s.log;
    first := s.Refresh(CleanScript());
    assert NineMessages() <= before <= s.log;
    NinePass(s.log);
    EightKept(s.contacts, s.log);
  }

  lemma NinePass(log: seq<Message>)
    requires NineMessages() <= log
    ensures Passed([], log, 0, HISTORY_MAX) == HISTORY_MAX == 8 && |log| >= 9
  {
    assert forall i :: 0 <= i < 9 ==> log[i] == NineMessages()[i];
    assert Passed(["a"], log, 5, 3) == 3 by {
      assert Passed(["a"], log, 7, 1) == 1;
    }
    assert Passed(["a"], log, 3, 5) == 5;
    assert Passed(["a"], log, 1, 7) == 7;
  }

  lemma EightKept(contacts: seq<Contact>, log: seq<Message>)
    requires NineMessages() <= log && Listed(contacts, log[..8])
    ensures exists c :: c in contacts && c.id == "a" && |c.messages| == 8
  {
    hide Inbox;
    assert forall i :: 0 <= i < 8 ==> log[..8][i] == NineMessages()[i];
    assert Knows(contacts, log[..8][0].sender);
    var k :| 0 <= k < |contacts| && contacts[k].id == "a";
    InboxOfOne(log, 8);
    assert contacts[k] in contacts;
  }

  lemma {:induction false} InboxOfOne(log: seq<Message>, n: nat)
    requires NineMessages() <= log && n <= 9
    ensures |Inbox(log[..n], "a")| == n
  {
    if n > 0 {
      assert log[n - 1] == NineMessages()[n - 1];
      InboxOfOne(log, n - 1);
      InboxNext(log, n - 1, "a");
    }
  }

  // Orders.

  /** The end of a history is an end of it. */
  lemma LastIsEnd<T>(s: seq<T>, n: nat)
    ensures exists front: seq<T> :: s == front + Last(s, n)
    ensures |s| <= n ==> Last(s, n) == s
  {
    if |s| <= n {
      assert s == [] + Last(s, n);
    } else {
      assert s == s[..|s| - n] + Last(s, n);
    }
  }

  /** Messages come in the order they were sent. */
  lemma {:induction false} InboxInOrder(a: seq<Message>, b: seq<Message>, sender: string)
    ensures Inbox(a + b, sender) == Inbox(a, sender) + Inbox(b, sender)
    ensures forall m :: Inbox([m], sender) == if m.sender == sender then [m.text] else []
  {
    hide Inbox;
    forall m: Message
      ensures Inbox([m], sender) == if m.sender == sender then [m.text] else []
    {
      InboxOne(m, sender);
    }
    if b == [] {
      assert a + b == a && Inbox(b, sender) == [] by {
        InboxOfStranger(b, sender);
      }
      assert Inbox(a, sender) + [] == Inbox(a, sender);
    } else {
      var k := |b| - 1;
      InboxInOrder(a, b[..k], sender);
      InboxNext(a + b, |a| + k, sender);
      InboxNext(b, k, sender);
      assert (a + b)[..|a| + k] == a + b[..k] && (a + b)[..|a| + k + 1] == a + b && b[..k + 1] == b;
    }
  }

  lemma InboxOne(m: Message, sender: string)
    ensures Inbox([m], sender) == if m.sender == sender then [m.text] else []
  {
    assert [m][..0] == [] && Inbox([], sender) == [];
  }
}

/** NixlAgent of nixl_checkpoint_engine.py: one socket and one notification list for all remote agents, sorted into a
    queue for each. */
module NixlAgent {
  import opened Wrappers

  function QueueOf<M>(queues: map<string, seq<M>>, name: string): seq<M> {
    if name in queues then queues[name] else []
  }

  function Push<M>(queues: map<string, seq<M>>, name: string, more: seq<M>): map<string, seq<M>> {
    queues[name := QueueOf(queues, name) + more]
  }

  // ----- messages -----

  /** The messages of one sender among those that arrive, in order. */
  function From<M>(arrivals: seq<(string, M)>, name: string): seq<M> {
    if arrivals == [] then []
    else (if arrivals[0].0 == name then [arrivals[0].1] else []) + From(arrivals[1..], name)
  }

  /** Message i is at the place in its sender's list that the number of earlier messages of that sender says, and no
      other sender has it. */
  lemma {:induction false} FromAt<M>(arrivals: seq<(string, M)>, name: string, i: nat)
    requires i < |arrivals|
    ensures var earlier := |From(arrivals[..i], name)|;
            if arrivals[i].0 == name then
              earlier < |From(arrivals, name)| && From(arrivals, name)[earlier] == arrivals[i].1
            else earlier <= |From(arrivals, name)|
    ensures |From(arrivals[..i + 1], name)| == |From(arrivals[..i], name)| + if arrivals[i].0 == name then 1 else 0
  {
    assert i > 0 ==> arrivals[..i][1..] == arrivals[1..][..i - 1];
    assert arrivals[..i + 1][1..] == arrivals[1..][..i];
    if i > 0 {
      FromAt(arrivals[1..], name, i - 1);
    }
  }

  /** What a sender has sent and nobody has read yet: queued here, or still to arrive. */
  function Unread<M>(queues: map<string, seq<M>>, arrivals: seq<(string, M)>, name: string): seq<M> {
    QueueOf(queues, name) + From(arrivals, name)
  }

  lemma PushAt<M>(queues: map<string, seq<M>>, name: string, more: seq<M>, other: string)
    ensures QueueOf(Push(queues, name, more), other)
         == if other == name then QueueOf(queues, name) + more else QueueOf(queues, other)
  {
  }

  lemma {:induction false} ArrivalIsQueued<M>(queues: map<string, seq<M>>, arrivals: seq<(string, M)>, name: string)
    requires arrivals != []
    ensures Unread(Push(queues, arrivals[0].0, [arrivals[0].1]), arrivals[1..], name) == Unread(queues, arrivals, name)
  {
    var (sender, message) := arrivals[0];
    var rest := From(arrivals[1..], name);
    PushAt(queues, sender, [message], name);
    var queue, first := QueueOf(queues, name), if sender == name then [message] else [];
    assert From(arrivals, name) == first + rest;
    assert (queue + first) + rest == queue + (first + rest);
  }

  // ----- notifications -----

  /** One answer of get_new_notifs: senders with their notifications. */
  type Poll<N> = seq<(string, seq<N>)>

  predicate IsPoll<N(==)>(poll: Poll<N>) {
    && (forall i :: 0 <= i < |poll| ==> poll[i].1 != [])
    && (forall i, j :: 0 <= i < j < |poll| ==> poll[i].0 != poll[j].0)
  }

  predicate ArePolls<N(==)>(polls: seq<Poll<N>>) {
    forall i :: 0 <= i < |polls| ==> IsPoll(polls[i])
  }

  function Queued<N>(queues: map<string, seq<N>>, poll: Poll<N>): map<string, seq<N>> {
    if poll == [] then queues
    else Push(Queued(queues, poll[..|poll| - 1]), poll[|poll| - 1].0, poll[|poll| - 1].1)
  }

  /** The answers from the first one with anything in it on. */
  function Answers<N>(polls: seq<Poll<N>>): seq<Poll<N>> {
    if polls != [] && |polls[0]| == 0 then Answers(polls[1..]) else polls
  }

  /** An answer is put behind what is in the queues. */
  lemma {:induction false} QueuedAt<N>(queues: map<string, seq<N>>, poll: Poll<N>, name: string)
    requires IsPoll(poll)
    ensures forall i :: 0 <= i < |poll| && poll[i].0 == name ==>
              QueueOf(Queued(queues, poll), name) == QueueOf(queues, name) + poll[i].1
    ensures (forall i :: 0 <= i < |poll| ==> poll[i].0 != name) ==>
              QueueOf(Queued(queues, poll), name) == QueueOf(queues, name)
    decreases |poll|
  {
    if poll != [] {
      var front, last := poll[..|poll| - 1], poll[|poll| - 1];
      QueuedAt(queues, front, name);
      PushAt(Queued(queues, front), last.0, last.1, name);
      assert forall i :: 0 <= i < |front| ==> poll[i] == front[i] && poll[i].0 != last.0;
    }
  }

  /** The first answer with anything in it. */
  lemma {:induction false} FirstAnswer<N>(polls: seq<Poll<N>>, k: nat)
    requires k <= |polls| && forall j :: 0 <= j < k ==> |polls[j]| == 0
    requires k < |polls| ==> |polls[k]| > 0
    ensures Answers(polls) == polls[k..]
  {
    if k > 0 {
      assert forall j :: 0 <= j < k - 1 ==> polls[1..][j] == polls[j + 1];
      FirstAnswer(polls[1..], k - 1);
    }
  }

  lemma {:induction false} AnswersStart<N>(polls: seq<Poll<N>>)
    requires ArePolls(polls)
    ensures ArePolls(Answers(polls)) && (Answers(polls) != [] ==> |Answers(polls)[0]| > 0)
  {
    if polls != [] && |polls[0]| == 0 {
      AnswersStart(polls[1..]);
    }
  }

  /** The sender whose notification a caller waiting for `remote` is given; None while there is nothing. The loop over
      an answer assigns to the very variable that names the sender waited for, so it is the last one in the first
      answer. */
  function Answered<N>(queues: map<string, seq<N>>, polls: seq<Poll<N>>, remote: string): Option<string> {
    if |QueueOf(queues, remote)| > 0 then Some(remote)
    else if Answers(polls) == [] || Answers(polls)[0] == [] then None
    else Some(Answers(polls)[0][|Answers(polls)[0]| - 1].0)
  }

  /** The queues the notification is taken from. */
  function Filled<N>(queues: map<string, seq<N>>, polls: seq<Poll<N>>, remote: string): map<string, seq<N>> {
    if |QueueOf(queues, remote)| > 0 || Answers(polls) == [] then queues else Queued(queues, Answers(polls)[0])
  }

  /** With something in the queue of the awaited agent that agent is answered and the queues stay as they are. Otherwise
      it is the last agent of the first answer that has any, and all of that answer is queued; nobody, if all answers
      are empty. */
  lemma WhoIsAnswered<N>(queues: map<string, seq<N>>, polls: seq<Poll<N>>, remote: string, k: nat)
    requires ArePolls(polls) && k <= |polls| && forall j :: 0 <= j < k ==> polls[j] == []
    requires k < |polls| ==> polls[k] != []
    ensures remote in queues && queues[remote] != [] ==>
              Answered(queues, polls, remote) == Some(remote) && Filled(queues, polls, remote) == queues
    ensures (remote !in queues || queues[remote] == []) && k < |polls| ==>
              && Answered(queues, polls, remote) == Some(polls[k][|polls[k]| - 1].0)
              && (forall i :: 0 <= i < |polls[k]| ==>
                    var (name, more) := polls[k][i];
                    QueueOf(Filled(queues, polls, remote), name) == QueueOf(queues, name) + more)
              && (forall name :: (forall i :: 0 <= i < |polls[k]| ==> polls[k][i].0 != name) ==>
                    QueueOf(Filled(queues, polls, remote), name) == QueueOf(queues, name))
    ensures (remote !in queues || queues[remote] == []) && k == |polls| ==> Answered(queues, polls, remote) == None
  {
    FirstAnswer(polls, k);
    if k < |polls| {
      forall name
        ensures forall i :: 0 <= i < |polls[k]| && polls[k][i].0 == name ==>
                  QueueOf(Queued(queues, polls[k]), name) == QueueOf(queues, name) + polls[k][i].1
        ensures (forall i :: 0 <= i < |polls[k]| ==> polls[k][i].0 != name) ==>
                  QueueOf(Queued(queues, polls[k]), name) == QueueOf(queues, name)
      {
        QueuedAt(queues, polls[k], name);
      }
    }
  }

  predicate Right<N>(polls: seq<Poll<N>>, remote: string) {
    Answered<N>(map[], polls, remote).Some? ==> Answered<N>(map[], polls, remote).value == remote
  }

  /** Only these agents notify this one, that is, read from it. */
  predicate PollsFrom<N(==)>(readers: set<string>, polls: seq<Poll<N>>) {
    ArePolls(polls) && forall i, j :: 0 <= i < |polls| && 0 <= j < |polls[i]| ==> polls[i][j].0 in readers
  }

  lemma {:induction false} AnswersAreFrom<N>(readers: set<string>, polls: seq<Poll<N>>)
    requires PollsFrom(readers, polls)
    ensures PollsFrom(readers, Answers(polls))
  {
    if polls != [] && |polls[0]| == 0 {
      assert forall i :: 0 <= i < |polls[1..]| ==> polls[1..][i] == polls[i + 1];
      AnswersAreFrom(readers, polls[1..]);
    }
  }

  ghost predicate AlwaysRight<N(!new)>(readers: set<string>) {
    forall polls: seq<Poll<N>>, remote ::
      PollsFrom(readers, polls) && remote in readers ==> Right(polls, remote)
  }

  /** A caller always gets a notification of the agent it waits for if and only if no two agents read from this one. In
      the relay chain no two do. */
  lemma OneReaderIff<N(!new)>(readers: set<string>, notification: N)
    ensures AlwaysRight<N>(readers) <==> forall a, b :: a in readers && b in readers ==> a == b
  {
    if forall a, b :: a in readers && b in readers ==> a == b {
      forall polls: seq<Poll<N>>, remote | PollsFrom(readers, polls) && remote in readers
        ensures Right(polls, remote)
      {
        AnswersAreFrom(readers, polls);
      }
    } else {
      var a, b :| a in readers && b in readers && a != b;
      var poll: Poll<N> := [(a, [notification]), (b, [notification])];
      assert PollsFrom(readers, [poll]);
      assert Answers([poll]) == [poll];
      assert !Right([poll], a);
    }
  }

  /** In the loop of get_notification: nothing has come yet, or the first answer has just been queued. */
  predicate Waiting<N(==)>(start: map<string, seq<N>>, polls: seq<Poll<N>>, remote: string,
                           now: map<string, seq<N>>, sender: string, rest: seq<Poll<N>>, answered: bool) {
    if !answered then sender == remote && now == start && Answers(rest) == Answers(polls)
    else
      && |QueueOf(start, remote)| == 0 && Answers(polls) != [] && |Answers(polls)[0]| > 0
      && now == Queued(start, Answers(polls)[0])
      && sender == Answers(polls)[0][|Answers(polls)[0]| - 1].0
      && |QueueOf(now, sender)| > 0
  }

  // ----- the class -----

  class NixlAgent<M, N> {
    var messages: map<string, seq<M>>
    var notifications: map<string, seq<N>>

    constructor ()
      ensures messages == map[] && notifications == map[]
    {
      messages, notifications := map[], map[];
    }

    /** `arrivals` is what the socket delivers, in order; the method takes as much as it has to. None if it is still
        waiting at the end. A message is handed out in its sender's order, and nobody else's are lost or reordered. */
    method ReadMessage(name: string, arrivals: seq<(string, M)>) returns (message: Option<M>, rest: seq<(string, M)>)
      modifies this`messages
      ensures message.None? <==> Unread(old(messages), arrivals, name) == []
      ensures message.None? ==> rest == []
      ensures message.Some? ==> [message.value] + Unread(messages, rest, name) == Unread(old(messages), arrivals, name)
      ensures forall other :: other != name ==> Unread(messages, rest, other) == Unread(old(messages), arrivals, other)
    {
      rest := arrivals;
      while |QueueOf(messages, name)| == 0
        invariant forall any :: Unread(messages, rest, any) == Unread(old(messages), arrivals, any)
        decreases |rest|
      {
        if rest == [] {
          return None, [];
        }
        forall any
          ensures Unread(Push(messages, rest[0].0, [rest[0].1]), rest[1..], any) == Unread(old(messages), arrivals, any)
        {
          ArrivalIsQueued(messages, rest, any);
        }
        messages := Push(messages, rest[0].0, [rest[0].1]);
        rest := rest[1..];
      }
      var queue := messages[name];
      ghost var before := messages;
      message := Some(queue[0]);
      messages := messages[name := queue[1..]];
      assert [queue[0]] + (queue[1..] + From(rest, name)) == queue + From(rest, name);
      assert Unread(before, rest, name) == Unread(old(messages), arrivals, name);
      forall other | other != name
        ensures Unread(messages, rest, other) == Unread(old(messages), arrivals, other)
      {
        assert Unread(messages, rest, other) == Unread(before, rest, other);
      }
    }

    /** `polls` are the answers get_new_notifs is going to give. */
    method GetNotification(remote: string, polls: seq<Poll<N>>) returns (result: Option<(string, N)>)
      requires ArePolls(polls)
      modifies this`notifications
      ensures var filled := Filled(old(notifications), polls, remote);
              match Answered(old(notifications), polls, remote)
              case None => result.None?
              case Some(sender) =>
                && |QueueOf(filled, sender)| > 0
                && result == Some((sender, QueueOf(filled, sender)[0]))
                && notifications == filled[sender := QueueOf(filled, sender)[1..]]
    {
      var sender, rest, answered := remote, polls, false;
      ghost var start := notifications;
      AnswersStart(polls);
      while |QueueOf(notifications, sender)| == 0
        invariant ArePolls(rest) && Waiting(start, polls, remote, notifications, sender, rest, answered)
        decreases |rest|
      {
        if rest == [] {
          return None;
        }
        sender := QueuePoll(rest[0], sender);
        answered, rest := rest[0] != [], rest[1..];
      }
      var queue := QueueOf(notifications, sender);
      result := Some((sender, queue[0]));
      notifications := notifications[sender := queue[1..]];
    }

    /** The loop over one answer, which leaves the name of its last sender behind. */
    method QueuePoll(poll: Poll<N>, remote: string) returns (sender: string)
      requires IsPoll(poll)
      modifies this`notifications
      ensures notifications == Queued(old(notifications), poll)
      ensures sender == if poll == [] then remote else poll[|poll| - 1].0
      ensures poll != [] ==> |QueueOf(notifications, sender)| > 0
    {
      sender := remote;
      for j := 0 to |poll|
        invariant notifications == Queued(old(notifications), poll[..j])
        invariant sender == if j == 0 then remote else poll[j - 1].0
        invariant j > 0 ==> |QueueOf(notifications, sender)| > 0
      {
        assert poll[..j + 1][..j] == poll[..j];
        sender := poll[j].0;
        notifications := Push(notifications, sender, poll[j].1);
      }
      assert poll[..|poll|] == poll;
    }
  }
}

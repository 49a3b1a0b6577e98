/**
 The chat message table as its two writers see it: timestamps that only go up within a conversation,
 and background updates that appear once per event key (owner_updates.py, chat_api.py). Times are microseconds.
*/
module OwnerUpdates {
  import opened Wrappers
  import opened Json

  const MAX_UPDATE_BYTES := 12000

  datatype Message<K> = Message(key: Option<K>, conversation: nat, content: Utf8, createdAt: int)

  /** `MAX(created_at)` of a conversation, or 0. */
  function Latest<K>(messages: seq<Message<K>>, conversation: nat): int {
    if messages == [] then 0
    else
      var rest, last := Latest(messages[..|messages| - 1], conversation), messages[|messages| - 1];
      if last.conversation == conversation && last.createdAt > rest then last.createdAt else rest
  }

  /** The clock, unless that would not be after everything already in the conversation. */
  function NextTime<K>(messages: seq<Message<K>>, conversation: nat, clock: int): int {
    if clock > Latest(messages, conversation) then clock else Latest(messages, conversation) + 1
  }

  /** Within a conversation, messages carry strictly increasing times in the order they were added. */
  ghost predicate Chronological<K(!new)>(messages: seq<Message<K>>) {
    forall i, j | 0 <= i < j < |messages| && messages[i].conversation == messages[j].conversation ::
      messages[i].createdAt < messages[j].createdAt
  }

  lemma {:induction false} LatestIsUpper<K(!new)>(messages: seq<Message<K>>, conversation: nat)
    ensures forall i | 0 <= i < |messages| && messages[i].conversation == conversation ::
      messages[i].createdAt <= Latest(messages, conversation)
  {
    if messages != [] {
      LatestIsUpper(messages[..|messages| - 1], conversation);
    }
  }

  /** Any message stamped no earlier than the next time keeps the order, however the clock jumps. */
  lemma AppendKeepsOrder<K(!new)>(messages: seq<Message<K>>, message: Message<K>, clock: int)
    requires Chronological(messages) && message.createdAt >= NextTime(messages, message.conversation, clock)
    ensures Chronological(messages + [message])
  {
    LatestIsUpper(messages, message.conversation);
  }

  lemma {:induction false} LatestIsLeast<K(!new)>(messages: seq<Message<K>>, conversation: nat)
    ensures Latest(messages, conversation) > 0 ==>
      exists i | 0 <= i < |messages| :: messages[i].conversation == conversation && messages[i].createdAt == Latest(messages, conversation)
    ensures Latest(messages, conversation) >= 0
  {
    if messages != [] {
      var n := |messages| - 1;
      LatestIsLeast(messages[..n], conversation);
      if Latest(messages, conversation) > 0 && Latest(messages, conversation) == Latest(messages[..n], conversation) {
        var i :| 0 <= i < n && messages[..n][i].conversation == conversation
          && messages[..n][i].createdAt == Latest(messages, conversation);
        assert messages[i].conversation == conversation;
      }
    }
  }

  /** A time at or after the clock, after zero and after everything in the conversation. */
  ghost predicate After<K(!new)>(messages: seq<Message<K>>, conversation: nat, clock: int, t: int) {
    clock <= t && 0 < t && forall i | 0 <= i < |messages| && messages[i].conversation == conversation :: messages[i].createdAt < t
  }

  /** The next time is the least such time. */
  lemma NextTimeIsLeast<K(!new)>(messages: seq<Message<K>>, conversation: nat, clock: int)
    ensures var t := NextTime(messages, conversation, clock);
      After(messages, conversation, clock, t) && forall u | After(messages, conversation, clock, u) :: t <= u
  {
    LatestIsUpper(messages, conversation);
    LatestIsLeast(messages, conversation);
  }

  // ----- publish -----

  datatype Log<K(==)> = Log(messages: seq<Message<K>>, published: set<K>)

  /** One row per event key in both tables, or none. */
  ghost predicate LogOk<K(!new)>(log: Log<K>) {
    && Chronological(log.messages)
    && forall key :: Copies(log.messages, key) == if key in log.published then 1 else 0
  }

  function Copies<K(==)>(messages: seq<Message<K>>, key: K): nat {
    if messages == [] then 0
    else Copies(messages[..|messages| - 1], key) + if messages[|messages| - 1].key == Some(key) then 1 else 0
  }

  predicate Publishable(content: Utf8) {
    1 <= |content| <= MAX_UPDATE_BYTES
  }

  function Publish<K>(log: Log<K>, key: K, conversation: nat, content: Utf8, clock: int): Log<K> {
    if !Publishable(content) || key in log.published then log
    else
      Log(log.messages + [Message(Some(key), conversation, content, NextTime(log.messages, conversation, clock))],
          log.published + {key})
  }

  /** A message is added exactly if its text is neither empty nor too long and its key is new; and it is that message. */
  lemma PublishedExactlyWhen<K(!new)>(log: Log<K>, key: K, conversation: nat, content: Utf8, clock: int)
    ensures var log' := Publish(log, key, conversation, content, clock);
      && (log' != log <==> 1 <= |content| <= 12000 && key !in log.published)
      && (log' != log ==>
            && log'.published == log.published + {key}
            && exists at :: log'.messages == log.messages + [Message(Some(key), conversation, content, at)]
                 && After(log.messages, conversation, clock, at)
                 && forall u | After(log.messages, conversation, clock, u) :: at <= u)
  {
    NextTimeIsLeast(log.messages, conversation, clock);
    var log' := Publish(log, key, conversation, content, clock);
    assert key in log'.published && key !in log.published ==> log' != log;
  }

  /** Publishing again never adds a second message, and an existing message keeps its text. */
  lemma PublishKeeps<K(!new)>(log: Log<K>, key: K, conversation: nat, content: Utf8, clock: int)
    requires LogOk(log)
    ensures var log' := Publish(log, key, conversation, content, clock);
      && LogOk(log') && log.messages <= log'.messages
      && (Publishable(content) ==> key in log'.published)
      && (key in log.published ==> log' == log)
  {
    var log' := Publish(log, key, conversation, content, clock);
    if log' != log {
      var message := log'.messages[|log.messages|];
      AppendKeepsOrder(log.messages, message, clock);
      assert log'.messages[..|log.messages|] == log.messages;
    }
  }
}

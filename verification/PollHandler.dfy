/** The poll handler, against the reads of `Polling`. */
module PollHandlers {
  import opened Lists
  import opened Messages
  import opened ZSets
  import opened Servers
  import opened Polling

  /** What ended the wait of a subscribed poll. */
  datatype Event = Woken | TimedOut | Disconnected

  lemma OneMore<T>(results: seq<Scored<T>>, i: nat)
    requires i < |results|
    ensures MembersOf(results[..i + 1]) == MembersOf(results[..i]) + [results[i].member]
    ensures MaxScore(results[..i + 1]) == Max(MaxScore(results[..i]), results[i].score)
  {
    assert results[..i + 1][..i] == results[..i];
  }

  method FetchDeletesSince(log: ZSet<Id>, after: int) returns (ids: seq<Id>, maxSeq: int)
    ensures ids == MembersOf(ZRangeAbove(log, after)) && maxSeq == MaxScore(ZRangeAbove(log, after))
  {
    var results := ZRangeAbove(log, after);
    ids, maxSeq := [], 0;
    for i := 0 to |results|
      invariant ids == MembersOf(results[..i]) && maxSeq == MaxScore(results[..i])
    {
      OneMore(results, i);
      ids := ids + [results[i].member];
      if results[i].score > maxSeq {
        maxSeq := results[i].score;
      }
    }
    assert results[..|results|] == results;
  }

  method FetchEditsSince(log: ZSet<Edit>, after: int) returns (entries: seq<Edit>, maxSeq: int)
    ensures entries == MembersOf(ZRangeAbove(log, after)) && maxSeq == MaxScore(ZRangeAbove(log, after))
  {
    var results := ZRangeAbove(log, after);
    entries, maxSeq := [], 0;
    for i := 0 to |results|
      invariant entries == MembersOf(results[..i]) && maxSeq == MaxScore(results[..i])
    {
      OneMore(results, i);
      entries := entries + [results[i].member];
      if results[i].score > maxSeq {
        maxSeq := results[i].score;
      }
    }
    assert results[..|results|] == results;
  }

  /** `s` is the chat when the messages are read, `logs` its keys when the two logs are read afterwards. */
  method BuildResult(s: Server, logs: Keys, c: Cursors) returns (r: Response)
    ensures r == WithLogs(FastMessages(s, c.after), logs, c)
  {
    var msgs := [];
    if CacheAhead(s.keys, c.after) {
      msgs := ReadMessages(s, c.after);
    }
    var deleted, lastDelete := FetchDeletesSince(logs.deleteLog, c.afterDelete);
    var edits, lastEdit := FetchEditsSince(logs.editLog, c.afterEdit);
    r := Response(msgs, deleted, lastDelete, edits, lastEdit);
  }

  /**
   * One poll request: `first` and `firstLogs` are the chat at the two reads of the fast check, `later`
   * and `laterLogs` at the two reads after the wake-up.
   */
  method Poll(first: Server, firstLogs: Keys, c: Cursors, event: Event, later: Server, laterLogs: Keys)
    returns (r: Option<Response>)
    ensures var fast := WithLogs(FastMessages(first, c.after), firstLogs, c);
      r == if !IsEmpty(fast) then Some(fast)
           else if event == Disconnected then None
           else if event == TimedOut then Some(NO_CONTENT)
           else Some(WithLogs(ReadMessages(later, c.after), laterLogs, c))
  {
    var fast := BuildResult(first, firstLogs, c);
    if fast.messages != [] || fast.deleted != [] || fast.edits != [] {
      return Some(fast);
    }
    if event == TimedOut { return Some(NO_CONTENT); }
    if event == Disconnected { return None; }
    var msgs := ReadMessages(later, c.after);
    var deleted, lastDelete := FetchDeletesSince(laterLogs.deleteLog, c.afterDelete);
    var edits, lastEdit := FetchEditsSince(laterLogs.editLog, c.afterEdit);
    if msgs == [] && deleted == [] && edits == [] {
      assert |ZRangeAbove(laterLogs.deleteLog, c.afterDelete)| == |deleted|;
      assert |ZRangeAbove(laterLogs.editLog, c.afterEdit)| == |edits|;
      return Some(NO_CONTENT);
    }
    r := Some(Response(msgs, deleted, lastDelete, edits, lastEdit));
  }
}

/** A chat message and the ordered reads the message table answers. */
module Messages {
  import opened Lists

  // Identifiers (UUIDs in the program) are opaque tokens compared for equality.
  type Id = nat
  type UserId = nat
  type ChatId = nat

  newtype Byte = x: int | 0 <= x < 256

  type Text = seq<Byte>

  /** One row of the table, and one entry of the widget's list. `num` is the per-chat sequence number. */
  datatype Message = Message(
    id: Id, chat: ChatId, user: UserId, num: nat, text: Text,
    created: int, editedAt: Option<int>, deleted: bool)

  /** Equal but for the three columns an update may write. */
  predicate SameOrigin(a: Message, b: Message) {
    a.id == b.id && a.chat == b.chat && a.user == b.user && a.num == b.num && a.created == b.created
  }

  /** Numbered 1, 2, 3, ... with no gap, and no id twice. */
  ghost predicate Numbered(rows: seq<Message>) {
    && (forall i :: 0 <= i < |rows| ==> rows[i].num == i + 1)
    && (forall i, j {:trigger rows[i].id, rows[j].id} :: 0 <= i < j < |rows| ==> rows[i].id != rows[j].id)
  }

  ghost predicate Ascending(s: seq<Message>) {
    forall i, j {:trigger s[i].num, s[j].num} :: 0 <= i < j < |s| ==> s[i].num < s[j].num
  }

  function Ids(s: seq<Message>): set<Id> {
    set m | m in s :: m.id
  }

  function IndexOf(rows: seq<Message>, id: Id): (i: int)
    ensures -1 <= i < |rows|
    ensures i >= 0 ==> rows[i].id == id
    ensures i < 0 ==> forall j :: 0 <= j < |rows| ==> rows[j].id != id
  {
    if rows == [] then -1
    else if rows[|rows| - 1].id == id then |rows| - 1
    else IndexOf(rows[..|rows| - 1], id)
  }

  // The WHERE clauses of the select statements; rows are held in seq order.

  function NewerThan(after: int): Message -> bool { (m: Message) => !m.deleted && m.num > after }

  function OlderThan(before: int): Message -> bool { (m: Message) => !m.deleted && m.num < before }

  function NotDeleted(): Message -> bool { (m: Message) => !m.deleted }

  function LiveAfter(rows: seq<Message>, after: int): (r: seq<Message>)
    ensures forall m :: m in r <==> m in rows && !m.deleted && m.num > after
  {
    Filter(rows, NewerThan(after))
  }

  function LiveBefore(rows: seq<Message>, before: int): (r: seq<Message>)
    ensures forall m :: m in r <==> m in rows && !m.deleted && m.num < before
  {
    Filter(rows, OlderThan(before))
  }

  function Live(rows: seq<Message>): (r: seq<Message>)
    ensures forall m :: m in r <==> m in rows && !m.deleted
  {
    Filter(rows, NotDeleted())
  }

  lemma NumberedAscending(rows: seq<Message>)
    requires Numbered(rows)
    ensures Ascending(rows)
    ensures forall i, j :: 0 <= i < j < |rows| ==> rows[i].num < rows[j].num
    ensures forall m :: m in rows ==> 1 <= m.num <= |rows| && rows[m.num - 1] == m
  {
    forall m | m in rows ensures 1 <= m.num <= |rows| && rows[m.num - 1] == m {
      var k :| 0 <= k < |rows| && rows[k] == m;
    }
  }

  lemma FilterAscending(s: seq<Message>, p: Message -> bool)
    requires Ascending(s)
    ensures Ascending(Filter(s, p))
  {
    var before := (a: Message, b: Message) => a.num < b.num;
    assert Pairwise(s, before);
    FilterPairwise(s, p, before);
    var r := Filter(s, p);
    forall i, j | 0 <= i < j < |r| ensures r[i].num < r[j].num {
      PairwiseAt(r, before, i, j);
    }
  }

  /** A page cut from the front misses only messages above its last one. */
  lemma TakeComplete(s: seq<Message>, n: nat, m: Message)
    requires Ascending(s) && m in s
    ensures m in Take(s, n) || (|Take(s, n)| == n && forall x :: x in Take(s, n) ==> x.num < m.num)
  {
    var k :| 0 <= k < |s| && s[k] == m;
    if k < n {
      assert Take(s, n)[k] == m;
    }
  }

  /** A page cut from the back misses only messages below its first one. */
  lemma SuffixComplete(s: seq<Message>, n: nat, m: Message)
    requires Ascending(s) && m in s
    ensures m in Suffix(s, n) || (|Suffix(s, n)| == n && forall x :: x in Suffix(s, n) ==> m.num < x.num)
  {
    var k :| 0 <= k < |s| && s[k] == m;
    var d := |s| - |Suffix(s, n)|;
    assert Suffix(s, n) == s[d..];
    if k >= d {
      assert Suffix(s, n)[k - d] == m;
    }
  }

  lemma HeadIsMember(s: seq<Message>)
    ensures s != [] ==> s[0] in s
  {
  }

  /** Two ascending lists with the same members are the same list. */
  lemma {:induction false} AscendingExtensional(a: seq<Message>, b: seq<Message>)
    requires Ascending(a) && Ascending(b)
    requires forall m :: m in a <==> m in b
    ensures a == b
  {
    if a == [] {
      HeadIsMember(b);
    } else {
      assert a[0] in b && b[0] in a;
      var j :| 0 <= j < |b| && b[j] == a[0];
      var i :| 0 <= i < |a| && a[i] == b[0];
      assert a[0] == b[0];
      forall m ensures m in a[1..] <==> m in b[1..] {
        if m in a[1..] {
          var k :| 1 <= k < |a| && a[k] == m;
          assert m in b && m != b[0];
        }
        if m in b[1..] {
          var k :| 1 <= k < |b| && b[k] == m;
          assert m in a && m != a[0];
        }
      }
      AscendingExtensional(a[1..], b[1..]);
    }
  }
}

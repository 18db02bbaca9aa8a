/** One-slot channels and growable slices of them. */
module Channels {
  import opened Lists

  type Payload = seq<char>

  /** A buffered channel of capacity one. */
  class Channel {
    var slot: Option<Payload>

    constructor ()
      ensures slot == None
    {
      slot := None;
    }

    /** A send that gives up when the buffer is full. */
    method Offer(data: Payload)
      modifies this
      ensures slot == if old(slot).None? then Some(data) else old(slot)
    {
      if slot.None? {
        slot := Some(data);
      }
    }
  }

  /** A new channel is on no list. */
  method NewChannel<K>(ghost lists: map<K, seq<Channel>>) returns (ch: Channel)
    ensures fresh(ch) && ch.slot == None && forall k :: k in lists ==> ch !in lists[k]
  {
    ch := new Channel();
  }

  /** A slice header: the first `len` elements of a backing array. */
  datatype Slice = Slice(data: array<Channel>, len: nat)

  predicate Fits(s: Slice) { s.len <= s.data.Length }

  function Items(s: Slice): (r: seq<Channel>)
    requires Fits(s)
    reads s.data
  {
    s.data[..s.len]
  }

  method NewSlice() returns (s: Slice)
    ensures fresh(s.data) && Fits(s) && Items(s) == []
  {
    var data: array<Channel> := new Channel[0];
    s := Slice(data, 0);
  }

  /** In place when there is room, into a doubled array when there is none. */
  method Append(s: Slice, x: Channel) returns (r: Slice)
    requires Fits(s)
    modifies s.data
    ensures Fits(r) && Items(r) == old(Items(s)) + [x]
    ensures if s.len < s.data.Length then r.data == s.data else fresh(r.data)
  {
    if s.len < s.data.Length {
      s.data[s.len] := x;
      r := Slice(s.data, s.len + 1);
    } else {
      var size := if s.len == 0 then 1 else 2 * s.len;
      var data := new Channel[size](i reads s.data => if 0 <= i < s.len && i < s.data.Length then s.data[i] else x);
      r := Slice(data, s.len + 1);
    }
  }

  /** append(list[:i], list[i+1:]...): the tail is shifted down inside the same array. */
  method RemoveAt(s: Slice, i: nat) returns (r: Slice)
    requires Fits(s) && i < s.len
    modifies s.data
    ensures r == Slice(s.data, s.len - 1) && Items(r) == old(Items(s))[..i] + old(Items(s))[i + 1..]
  {
    ghost var was := Items(s);
    var k := i;
    while k < s.len - 1
      invariant i <= k <= s.len - 1
      invariant forall j {:trigger s.data[j]} :: 0 <= j < s.len ==>
        s.data[j] == if i <= j < k then was[j + 1] else was[j]
    {
      s.data[k] := s.data[k + 1];
      k := k + 1;
    }
    r := Slice(s.data, s.len - 1);
  }

  method CopyOf(s: Slice) returns (list: array<Channel>)
    requires Fits(s)
    ensures fresh(list) && list[..] == Items(s)
  {
    list := new Channel[s.len](i requires 0 <= i < s.len && Fits(s) reads s.data => s.data[i]);
  }

  method Find(s: Slice, ch: Channel) returns (i: nat)
    requires Fits(s)
    ensures i < s.len ==> s.data[i] == ch && ch !in Items(s)[..i]
    ensures i >= s.len ==> i == s.len && ch !in Items(s)
  {
    i := 0;
    while i < s.len && s.data[i] != ch
      invariant 0 <= i <= s.len && ch !in Items(s)[..i]
    {
      assert Items(s)[..i + 1] == Items(s)[..i] + [s.data[i]];
      i := i + 1;
    }
    assert i == s.len ==> Items(s)[..i] == Items(s);
  }

  /** What one offer to each of `targets` makes of a channel. */
  ghost function AfterOffers(targets: seq<Channel>, before: Option<Payload>, ch: Channel, data: Payload)
    : Option<Payload>
  {
    if ch in targets && before.None? then Some(data) else before
  }

  /** The sends of one publish, over its own copy of the list. */
  method OfferAll(list: array<Channel>, data: Payload)
    modifies set ch | ch in list[..]
    ensures list[..] == old(list[..])
    ensures forall ch :: ch in list[..] ==> ch.slot == AfterOffers(list[..], old(ch.slot), ch, data)
  {
    for i := 0 to list.Length
      invariant forall ch :: ch in list[..] ==> ch.slot == AfterOffers(list[..i], old(ch.slot), ch, data)
    {
      assert list[i] in list[..];
      assert list[..i + 1] == list[..i] + [list[i]];
      list[i].Offer(data);
    }
    assert list[..list.Length] == list[..];
  }
}

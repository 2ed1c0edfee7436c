/**
  Rooms as the client sees them, and the filter the client applies to every
  room list the server broadcasts: keep the rooms whose name contains the
  current search text.
 */
module RoomFilter {

  datatype Room = Room(uuid: string, name: string)

  /** `sub` occurs in `s` starting at offset `i`. */
  ghost predicate OccursAt(s: string, sub: string, i: int)
  {
    0 <= i && i + |sub| <= |s| && s[i..i + |sub|] == sub
  }

  /**
    JavaScript's `String.prototype.includes` without a start position:
    scans `s` left to right for an occurrence of `sub`. The empty string
    occurs in every string.
   */
  predicate Includes(s: string, sub: string)
    decreases |s|
  {
    if |sub| > |s| then false
    else if s[..|sub|] == sub then true
    else Includes(s[1..], sub)
  }

  /** The scan finds `sub` exactly when `sub` occurs at some offset of `s`. */
  lemma {:induction false} IncludesIffOccurs(s: string, sub: string)
    ensures Includes(s, sub) <==> exists i :: OccursAt(s, sub, i)
    decreases |s|
  {
    if |sub| > |s| {
      assert forall i :: !OccursAt(s, sub, i);
    } else if s[..|sub|] == sub {
      assert OccursAt(s, sub, 0);
    } else {
      IncludesIffOccurs(s[1..], sub);
      if Includes(s[1..], sub) {
        var i :| OccursAt(s[1..], sub, i);
        assert s[i + 1..i + 1 + |sub|] == s[1..][i..i + |sub|];
        assert OccursAt(s, sub, i + 1);
      } else {
        forall i | OccursAt(s, sub, i)
          ensures false
        {
          assert i != 0;
          assert s[1..][i - 1..i - 1 + |sub|] == s[i..i + |sub|];
          assert OccursAt(s[1..], sub, i - 1);
        }
      }
    }
  }

  /** The room's name contains the search text. */
  predicate Matches(room: Room, search: string)
  {
    Includes(room.name, search)
  }

  /** The rooms of `rooms` whose name contains `search`, in their original order. */
  function FilterRooms(rooms: seq<Room>, search: string): (r: seq<Room>)
    ensures |r| <= |rooms|
    ensures forall i :: 0 <= i < |r| ==> Matches(r[i], search)
    ensures forall i :: 0 <= i < |rooms| && Matches(rooms[i], search) ==> rooms[i] in r
    ensures forall room :: room in r ==> room in rooms
  {
    if rooms == [] then []
    else if Matches(rooms[0], search) then [rooms[0]] + FilterRooms(rooms[1..], search)
    else FilterRooms(rooms[1..], search)
  }

  /** `a` is `b` with some elements deleted, order kept. */
  predicate IsSubsequence<T(==)>(a: seq<T>, b: seq<T>)
    decreases |b|
  {
    if a == [] then true
    else if b == [] then false
    else if a[0] == b[0] then IsSubsequence(a[1..], b[1..])
    else IsSubsequence(a, b[1..])
  }

  /** The filter only deletes rooms; it never reorders them. */
  lemma {:induction false} FilterIsSubsequence(rooms: seq<Room>, search: string)
    ensures IsSubsequence(FilterRooms(rooms, search), rooms)
  {
    if rooms != [] {
      FilterIsSubsequence(rooms[1..], search);
      var rest := FilterRooms(rooms[1..], search);
      if Matches(rooms[0], search) {
        assert ([rooms[0]] + rest)[1..] == rest;
      } else {
        SubsequenceOfTail(rest, rooms);
      }
    }
  }

  /** A subsequence of the tail of `b` is a subsequence of `b`. */
  lemma {:induction false} SubsequenceOfTail<T>(a: seq<T>, b: seq<T>)
    requires b != []
    requires IsSubsequence(a, b[1..])
    ensures IsSubsequence(a, b)
    decreases |b|, 0
  {
    if a != [] && a[0] == b[0] {
      SubsequenceDropHead(a, b[1..]);
    }
  }

  /** Dropping the first element of a subsequence keeps it a subsequence. */
  lemma {:induction false} SubsequenceDropHead<T>(a: seq<T>, b: seq<T>)
    requires a != []
    requires IsSubsequence(a, b)
    ensures IsSubsequence(a[1..], b)
    decreases |b|, 1
  {
    if a[0] == b[0] {
      if a[1..] != [] {
        SubsequenceOfTail(a[1..], b);
      }
    } else {
      SubsequenceDropHead(a, b[1..]);
      if a[1..] != [] {
        SubsequenceOfTail(a[1..], b);
      }
    }
  }

  /**
    The filter keeps every copy of a matching room and no copy of any other:
    its result is exactly the matching part of the input, as a multiset.
   */
  lemma {:induction false} FilterCount(rooms: seq<Room>, search: string, room: Room)
    ensures multiset(FilterRooms(rooms, search))[room] ==
            if Matches(room, search) then multiset(rooms)[room] else 0
  {
    if rooms != [] {
      FilterCount(rooms[1..], search, room);
      assert rooms == [rooms[0]] + rooms[1..];
    }
  }

  /** Filtering an already filtered list by the same text changes nothing. */
  lemma {:induction false} FilterIdempotent(rooms: seq<Room>, search: string)
    ensures FilterRooms(FilterRooms(rooms, search), search) == FilterRooms(rooms, search)
  {
    if rooms != [] {
      FilterIdempotent(rooms[1..], search);
      var rest := FilterRooms(rooms[1..], search);
      if Matches(rooms[0], search) {
        assert ([rooms[0]] + rest)[1..] == rest;
      }
    }
  }
}

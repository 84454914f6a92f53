/** The room editor popup (fe/src/components/Matching/StudentMatchingPopup.tsx):
    the roster is split by gender label, each half is chunked into two-slot
    rooms, and drag-and-drop moves or swaps students between slots while the
    room scores stay frozen. */
module RoomEditor {
  import opened Wrappers
  import opened Text

  /** A roster entry as handed to the popup. */
  datatype RosterEntry = RosterEntry(id: string, name: string, gender: string)

  /** A student placed in a room; `gender` is "남" or "여". */
  datatype Student = Student(id: string, name: string, gender: string, score: int)

  /** A room: a fixed pair of slots, `None` for an empty (`null`) slot. */
  datatype Room = Room(id: string, students: seq<Option<Student>>, score: int)

  /** A drag end point: the room id of the droppable and the slot index. */
  datatype Location = Location(droppableId: string, index: nat)

  const MaleLabel: string := "\U{B0A8}"
  const FemaleLabel: string := "\U{C5EC}"

  predicate IsMaleLabel(g: string) {
    g == MaleLabel || g == "M"
  }

  predicate IsFemaleLabel(g: string) {
    g == FemaleLabel || g == "F"
  }

  predicate Labelled(g: string, male: bool) {
    if male then IsMaleLabel(g) else IsFemaleLabel(g)
  }

  /** The two label families are disjoint. */
  lemma LabelsDisjoint(g: string)
    ensures !(IsMaleLabel(g) && IsFemaleLabel(g))
  {
    assert MaleLabel[0] != FemaleLabel[0];
  }

  function GenderOf(male: bool): string {
    if male then MaleLabel else FemaleLabel
  }

  function Prefix(male: bool): string {
    if male then "M" else "F"
  }

  function ToStudent(e: RosterEntry, score: int, male: bool): Student {
    Student(e.id, e.name, GenderOf(male), score)
  }

  // ---------------------------------------------------------------------
  // Splitting the roster by gender label

  /** The students of one gender, in roster order; `scores[k]` stands for the
      random score given to roster entry `k`. */
  function Pick(roster: seq<RosterEntry>, scores: seq<int>, male: bool): (r: seq<Student>)
    requires |scores| == |roster|
    ensures |r| <= |roster|
    ensures forall x :: x in r ==> x.gender == GenderOf(male)
    decreases |roster|
  {
    if roster == [] then []
    else
      var rest := Pick(roster[1..], scores[1..], male);
      if Labelled(roster[0].gender, male) then [ToStudent(roster[0], scores[0], male)] + rest else rest
  }

  /** Picking is a filter: it distributes over concatenation, so the picked
      students keep roster order. */
  lemma {:induction false} PickAppend(r1: seq<RosterEntry>, s1: seq<int>, r2: seq<RosterEntry>, s2: seq<int>)
    requires |s1| == |r1| && |s2| == |r2|
    ensures forall male: bool :: Pick(r1 + r2, s1 + s2, male) == Pick(r1, s1, male) + Pick(r2, s2, male)
    decreases |r1|
  {
    if r1 != [] {
      assert (r1 + r2)[1..] == r1[1..] + r2;
      assert (s1 + s2)[1..] == s1[1..] + s2;
      PickAppend(r1[1..], s1[1..], r2, s2);
    } else {
      assert r1 + r2 == r2 && s1 + s2 == s2;
    }
  }

  /** A picked student comes from an entry with a label of that gender, and
      every such entry is picked. */
  lemma {:induction false} PickMembers(roster: seq<RosterEntry>, scores: seq<int>, male: bool)
    requires |scores| == |roster|
    ensures forall k :: 0 <= k < |roster| && Labelled(roster[k].gender, male) ==>
      ToStudent(roster[k], scores[k], male) in Pick(roster, scores, male)
    ensures forall x :: x in Pick(roster, scores, male) ==>
      exists k :: 0 <= k < |roster| && Labelled(roster[k].gender, male) && x == ToStudent(roster[k], scores[k], male)
    decreases |roster|
  {
    if roster != [] {
      PickMembers(roster[1..], scores[1..], male);
      forall x | x in Pick(roster[1..], scores[1..], male)
        ensures exists k :: 0 <= k < |roster| && Labelled(roster[k].gender, male) && x == ToStudent(roster[k], scores[k], male)
      {
        var k :| 0 <= k < |roster[1..]| && Labelled(roster[1..][k].gender, male)
          && x == ToStudent(roster[1..][k], scores[1..][k], male);
        assert roster[k + 1] == roster[1..][k] && scores[k + 1] == scores[1..][k];
      }
      forall k | 0 <= k < |roster| && Labelled(roster[k].gender, male)
        ensures ToStudent(roster[k], scores[k], male) in Pick(roster, scores, male)
      {
        if k > 0 {
          assert roster[k] == roster[1..][k - 1] && scores[k] == scores[1..][k - 1];
        }
      }
    }
  }

  /** Roster entries whose label is neither male nor female. */
  function Unrecognised(roster: seq<RosterEntry>): (r: nat)
    ensures r <= |roster|
  {
    if roster == [] then 0
    else
      var here := if IsMaleLabel(roster[0].gender) || IsFemaleLabel(roster[0].gender) then 0 else 1;
      here + Unrecognised(roster[1..])
  }

  /** Every entry lands in exactly one of the two lists or is dropped. */
  lemma {:induction false} PickPartition(roster: seq<RosterEntry>, scores: seq<int>)
    requires |scores| == |roster|
    ensures |Pick(roster, scores, true)| + |Pick(roster, scores, false)| + Unrecognised(roster) == |roster|
    decreases |roster|
  {
    if roster != [] {
      LabelsDisjoint(roster[0].gender);
      PickPartition(roster[1..], scores[1..]);
    }
  }

  // ---------------------------------------------------------------------
  // Building rooms (createRoomsFromStudents)

  /** "M-Room-k" / "F-Room-k" for the room at 0-based position `k`. */
  function RoomId(prefix: string, k: nat): string {
    prefix + "-Room-" + NatToString(k + 1)
  }

  /** A full room scores the floor of its members' mean, a half-empty one its
      only member's score. */
  function RoomScore(a: Student, b: Option<Student>): (r: int)
    ensures b.None? ==> r == a.score
    ensures b.Some? ==> 2 * r <= a.score + b.value.score < 2 * r + 2
  {
    if b.Some? then (a.score + b.value.score) / 2 else a.score
  }

  /** The room built from students `2k` and `2k+1`. */
  function RoomAt(list: seq<Student>, prefix: string, k: nat): Room
    requires 2 * k < |list|
  {
    var second := if 2 * k + 1 < |list| then Some(list[2 * k + 1]) else None;
    Room(RoomId(prefix, k), [Some(list[2 * k]), second], RoomScore(list[2 * k], second))
  }

  /** The rooms built from a gender list: room `m` seats students `2m` and
      `2m+1`, so there are ceil(n/2) of them. */
  function Chunk(list: seq<Student>, prefix: string): (r: seq<Room>)
    ensures |r| == (|list| + 1) / 2
    ensures forall m :: 0 <= m < |r| ==> 2 * m < |list| && r[m] == RoomAt(list, prefix, m)
  {
    seq((|list| + 1) / 2, m requires 0 <= m < (|list| + 1) / 2 => RoomAt(list, prefix, m))
  }

  /** The loop of createRoomsFromStudents. */
  method CreateRooms(list: seq<Student>, male: bool) returns (rooms: seq<Room>)
    ensures rooms == Chunk(list, Prefix(male))
  {
    rooms := [];
    var i := 0;
    while i < |list|
      invariant i % 2 == 0 && 0 <= i <= |list| + 1
      invariant |rooms| == i / 2
      invariant forall m :: 0 <= m < |rooms| ==> 2 * m < |list| && rooms[m] == RoomAt(list, Prefix(male), m)
      decreases |list| - i
    {
      var student1 := list[i];
      var student2 := if i + 1 < |list| then Some(list[i + 1]) else None;
      var id := Prefix(male) + "-Room-" + NatToString(i / 2 + 1);
      var score := if student2.Some? then (student1.score + student2.value.score) / 2 else student1.score;
      var room := Room(id, [Some(student1), student2], score);
      assert 2 * (i / 2) == i;
      assert room == RoomAt(list, Prefix(male), i / 2);
      rooms := rooms + [room];
      i := i + 2;
    }
    assert 2 * (i / 2) == i;
    assert |rooms| == (|list| + 1) / 2;
  }

  /** The occupied slots of a slot list, in order. */
  function SlotsOf(ss: seq<Option<Student>>): (r: seq<Student>)
    ensures |r| <= |ss|
  {
    if ss == [] then []
    else (if ss[0].Some? then [ss[0].value] else []) + SlotsOf(ss[1..])
  }

  /** All students seated in a room list, room by room. */
  function Occupants(rooms: seq<Room>): seq<Student> {
    if rooms == [] then [] else SlotsOf(rooms[0].students) + Occupants(rooms[1..])
  }

  /** Every room has its two slots. */
  ghost predicate TwoSlots(rooms: seq<Room>) {
    forall k :: 0 <= k < |rooms| ==> |rooms[k].students| == 2
  }

  /** Built rooms have two slots, the first always taken; only the last room
      of an odd-sized list has an empty second slot. */
  lemma ChunkShape(list: seq<Student>, prefix: string)
    ensures var rooms := Chunk(list, prefix);
      && TwoSlots(rooms)
      && (forall k :: 0 <= k < |rooms| ==> rooms[k].students[0] == Some(list[2 * k]))
      && (forall k :: 0 <= k < |rooms| ==>
            (rooms[k].students[1].None? <==> k == |rooms| - 1 && |list| % 2 == 1))
  {
  }

  /** The students seated in room `k`: list entries `2k` and, when present, `2k+1`. */
  lemma RoomAtSlots(list: seq<Student>, prefix: string, k: nat)
    requires 2 * k < |list|
    ensures SlotsOf(RoomAt(list, prefix, k).students) == list[2 * k..PairEnd(|list|, k)]
  {
    var ss := RoomAt(list, prefix, k).students;
    assert ss[1..][1..] == [];
  }

  lemma OccupantsCons(x: Room, rest: seq<Room>)
    ensures Occupants([x] + rest) == SlotsOf(x.students) + Occupants(rest)
  {
    assert ([x] + rest)[1..] == rest;
  }

  /** Peeling the first room off a non-empty suffix of a room list. */
  lemma OccupantsFrom(rooms: seq<Room>, m: nat)
    requires m < |rooms|
    ensures Occupants(rooms[m..]) == SlotsOf(rooms[m].students) + Occupants(rooms[m + 1..])
  {
    assert rooms[m..] == [rooms[m]] + rooms[m + 1..];
    OccupantsCons(rooms[m], rooms[m + 1..]);
  }

  /** The end of the pair of list entries that room `k` seats. */
  function PairEnd(n: nat, k: nat): nat {
    if 2 * k + 2 <= n then 2 * k + 2 else n
  }

  /** Rooms that each seat their pair of list entries seat, from room `m`
      on, the entries from `2m` on. */
  lemma {:induction false} PairedSuffix(rooms: seq<Room>, list: seq<Student>, m: nat)
    requires 2 * |rooms| == |list| || 2 * |rooms| == |list| + 1
    requires forall k :: 0 <= k < |rooms| ==> SlotsOf(rooms[k].students) == list[2 * k..PairEnd(|list|, k)]
    requires m <= |rooms|
    ensures Occupants(rooms[m..]) == list[if 2 * m <= |list| then 2 * m else |list|..]
    decreases |rooms| - m
  {
    var n := |list|;
    if m < |rooms| {
      PairedSuffix(rooms, list, m + 1);
      OccupantsFrom(rooms, m);
      assert list[2 * m..] == list[2 * m..PairEnd(n, m)] + list[PairEnd(n, m)..];
    } else {
      assert rooms[m..] == [];
    }
  }

  /** Building rooms seats every student exactly once, in list order. */
  lemma ChunkOccupants(list: seq<Student>, prefix: string)
    ensures Occupants(Chunk(list, prefix)) == list
  {
    var rooms := Chunk(list, prefix);
    forall k | 0 <= k < |rooms|
      ensures SlotsOf(rooms[k].students) == list[2 * k..PairEnd(|list|, k)]
    {
      RoomAtSlots(list, prefix, k);
    }
    PairedSuffix(rooms, list, 0);
    assert rooms[0..] == rooms;
  }

  /** Room ids carry the gender prefix and are pairwise distinct. */
  lemma RoomIdsDistinct(prefix: string, k: nat, l: nat)
    ensures StartsWith(RoomId(prefix, k), prefix)
    ensures RoomId(prefix, k) == RoomId(prefix, l) ==> k == l
  {
    var head := prefix + "-Room-";
    assert RoomId(prefix, k)[..|prefix|] == prefix;
    if RoomId(prefix, k) == RoomId(prefix, l) {
      assert NatToString(k + 1) == RoomId(prefix, k)[|head|..] == NatToString(l + 1);
      NatToStringInjective(k + 1, l + 1);
    }
  }

  // ---------------------------------------------------------------------
  // A drop (onDragEnd on one gender's rooms)

  /** `rooms.findIndex((r) => r.id === id)`. */
  function FindRoom(rooms: seq<Room>, id: string): (r: int)
    ensures -1 <= r < |rooms|
    ensures r == -1 <==> forall k :: 0 <= k < |rooms| ==> rooms[k].id != id
    ensures r >= 0 ==> rooms[r].id == id && forall k :: 0 <= k < r ==> rooms[k].id != id
  {
    if rooms == [] then -1
    else if rooms[0].id == id then 0
    else
      var r := FindRoom(rooms[1..], id);
      if r == -1 then -1 else r + 1
  }

  /** `room.students[i]`, with an out-of-range index reading as empty. */
  function Slot(room: Room, i: nat): Option<Student> {
    if i < |room.students| then room.students[i] else None
  }

  /** `Math.min(destination.index, 1)`. */
  function TargetSlot(d: nat): (r: nat)
    ensures r <= 1 && (d >= 1 ==> r == 1) && (d == 0 ==> r == 0)
  {
    if d < 1 then d else 1
  }

  /** Moving within one room: the dragged student takes slot `to` and the
      other student the remaining slot. */
  function Reorder(ss: seq<Option<Student>>, from: nat, to: nat): (r: seq<Option<Student>>)
    requires |ss| == 2 && from <= 1 && to <= 1
    ensures |r| == 2 && r[to] == ss[from] && r[1 - to] == ss[1 - from]
  {
    if from == to then ss else [ss[1], ss[0]]
  }

  /** What a drop does to one gender's rooms: nothing when either room is
      unknown or the source slot is empty; a reorder within a room; or, across
      rooms, an exchange of the source slot with the target slot (a swap when
      the target is taken, a move that leaves the source slot empty when it is
      not). */
  ghost function AfterDrop(rooms: seq<Room>, src: Location, dst: Location): seq<Room>
    requires TwoSlots(rooms)
  {
    var si := FindRoom(rooms, src.droppableId);
    var di := FindRoom(rooms, dst.droppableId);
    if si < 0 || di < 0 || Slot(rooms[si], src.index).None? then rooms
    else
      var t := TargetSlot(dst.index);
      var s := rooms[si];
      var d := rooms[di];
      if src.droppableId == dst.droppableId then
        rooms[si := s.(students := Reorder(s.students, src.index, t))]
      else
        rooms[si := s.(students := s.students[src.index := d.students[t]])]
             [di := d.(students := d.students[t := s.students[src.index]])]
  }

  /** A drop keeps every room's id, score and two slots, touches no room but
      the source and destination, and puts the dragged student into the target
      slot. */
  lemma DropShape(rooms: seq<Room>, src: Location, dst: Location)
    requires TwoSlots(rooms)
    ensures var r := AfterDrop(rooms, src, dst);
      && |r| == |rooms| && TwoSlots(r)
      && (forall k :: 0 <= k < |r| ==> r[k].id == rooms[k].id && r[k].score == rooms[k].score)
      && (forall k :: 0 <= k < |r| && k != FindRoom(rooms, src.droppableId) && k != FindRoom(rooms, dst.droppableId)
            ==> r[k] == rooms[k])
    ensures var si, di := FindRoom(rooms, src.droppableId), FindRoom(rooms, dst.droppableId);
      si >= 0 && di >= 0 && Slot(rooms[si], src.index).Some? ==>
        AfterDrop(rooms, src, dst)[di].students[TargetSlot(dst.index)] == Slot(rooms[si], src.index)
  {
    var si := FindRoom(rooms, src.droppableId);
    var di := FindRoom(rooms, dst.droppableId);
    if si >= 0 && di >= 0 && Slot(rooms[si], src.index).Some? {
      var t := TargetSlot(dst.index);
      var s, d := rooms[si], rooms[di];
      if src.droppableId == dst.droppableId {
        assert si == di;
        var r := rooms[si := s.(students := Reorder(s.students, src.index, t))];
        assert r == AfterDrop(rooms, src, dst);
        assert r[di].students[t] == s.students[src.index];
      } else {
        assert si != di;
        var r1 := rooms[si := s.(students := s.students[src.index := d.students[t]])];
        var r := r1[di := d.(students := d.students[t := s.students[src.index]])];
        assert r == AfterDrop(rooms, src, dst);
        assert |r1| == |rooms| && TwoSlots(r1);
      }
    }
  }

  /** The students seated in a room list, counted with multiplicity. */
  ghost function Bag(rooms: seq<Room>): multiset<Student> {
    multiset(Occupants(rooms))
  }

  lemma {:induction false} OccupantsAppend(a: seq<Room>, b: seq<Room>)
    ensures Occupants(a + b) == Occupants(a) + Occupants(b)
    decreases |a|
  {
    if a != [] {
      assert (a + b)[1..] == a[1..] + b;
      OccupantsAppend(a[1..], b);
    } else {
      assert a + b == b;
    }
  }

  /** Replacing one room changes the seated students by exactly that room's. */
  lemma BagUpdate(rooms: seq<Room>, k: nat, r: Room)
    requires k < |rooms|
    ensures Bag(rooms[k := r]) + Bag([rooms[k]]) == Bag(rooms) + Bag([r])
  {
    assert rooms == rooms[..k] + [rooms[k]] + rooms[k + 1..];
    assert rooms[k := r] == rooms[..k] + [r] + rooms[k + 1..];
    OccupantsAppend(rooms[..k] + [rooms[k]], rooms[k + 1..]);
    OccupantsAppend(rooms[..k], [rooms[k]]);
    OccupantsAppend(rooms[..k] + [r], rooms[k + 1..]);
    OccupantsAppend(rooms[..k], [r]);
  }

  function SlotBag(o: Option<Student>): multiset<Student> {
    if o.Some? then multiset{o.value} else multiset{}
  }

  /** The students seated in one two-slot room. */
  lemma RoomBag(r: Room)
    requires |r.students| == 2
    ensures Bag([r]) == SlotBag(r.students[0]) + SlotBag(r.students[1])
  {
    var ss := r.students;
    assert ss[1..][1..] == [];
    assert [r][1..] == [];
    assert Occupants([r]) == SlotsOf(ss);
  }

  /** Writing `v` into slot `i` of a two-slot room trades the old occupant's
      share for `v`'s. */
  lemma SlotWrite(r: Room, i: nat, v: Option<Student>)
    requires |r.students| == 2 && i <= 1
    ensures Bag([r.(students := r.students[i := v])]) + SlotBag(r.students[i]) == Bag([r]) + SlotBag(v)
  {
    var ss := r.students[i := v];
    var a, b, x := SlotBag(r.students[0]), SlotBag(r.students[1]), SlotBag(v);
    RoomBag(r);
    RoomBag(r.(students := ss));
    if i == 0 {
      assert ss[0] == v && ss[1] == r.students[1];
      assert Bag([r.(students := ss)]) == x + b;
      UnionRotate(x, b, a);
    } else {
      assert ss[0] == r.students[0] && ss[1] == v;
      assert Bag([r.(students := ss)]) == a + x;
      UnionRotate(a, x, b);
    }
  }

  /** `(p + q) + s` rearranged, for the two slot positions. */
  lemma UnionRotate<T>(p: multiset<T>, q: multiset<T>, s: multiset<T>)
    ensures (p + q) + s == (s + q) + p && (p + q) + s == (p + s) + q
  {
  }

  lemma MultisetCancel<T>(a: multiset<T>, b: multiset<T>, c: multiset<T>)
    requires a + c == b + c
    ensures a == b
  {
    assert forall x :: a[x] == (a + c)[x] - c[x];
    assert forall x :: b[x] == (b + c)[x] - c[x];
  }

  /** Rewriting the slots of one two-slot room without changing which
      students it seats keeps the seated students. */
  lemma ReorderConserves(rooms: seq<Room>, si: nat, ss: seq<Option<Student>>)
    requires si < |rooms| && |rooms[si].students| == 2 && |ss| == 2
    requires SlotBag(ss[0]) + SlotBag(ss[1]) == SlotBag(rooms[si].students[0]) + SlotBag(rooms[si].students[1])
    ensures Bag(rooms[si := rooms[si].(students := ss)]) == Bag(rooms)
  {
    var s := rooms[si];
    var s' := s.(students := ss);
    RoomBag(s);
    RoomBag(s');
    BagUpdate(rooms, si, s');
    MultisetCancel(Bag(rooms[si := s']), Bag(rooms), Bag([s]));
  }

  /** Exchanging a slot of one two-slot room with a slot of another keeps the
      seated students. */
  lemma ExchangeConserves(rooms: seq<Room>, si: nat, i: nat, di: nat, t: nat)
    requires si < |rooms| && di < |rooms| && si != di && i <= 1 && t <= 1
    requires |rooms[si].students| == 2 && |rooms[di].students| == 2
    ensures var s, d := rooms[si], rooms[di];
      Bag(rooms[si := s.(students := s.students[i := d.students[t]])]
               [di := d.(students := d.students[t := s.students[i]])]) == Bag(rooms)
  {
    var s, d := rooms[si], rooms[di];
    var x, y := s.students[i], d.students[t];
    var s' := s.(students := s.students[i := y]);
    var d' := d.(students := d.students[t := x]);
    SlotWrite(s, i, y);
    SlotWrite(d, t, x);
    var r1 := rooms[si := s'];
    assert r1[di] == d;
    BagUpdate(rooms, si, s');
    BagUpdate(r1, di, d');
    var c := Bag([s]) + Bag([d]) + SlotBag(x) + SlotBag(y);
    calc {
      Bag(r1[di := d']) + c;
      (Bag(r1[di := d']) + Bag([d])) + Bag([s]) + SlotBag(x) + SlotBag(y);
      (Bag(r1) + Bag([s])) + Bag([d']) + SlotBag(x) + SlotBag(y);
      Bag(rooms) + (Bag([s']) + SlotBag(x)) + (Bag([d']) + SlotBag(y));
      Bag(rooms) + c;
    }
    MultisetCancel(Bag(r1[di := d']), Bag(rooms), c);
  }

  /** A drop neither loses nor duplicates a student. */
  lemma DropConserves(rooms: seq<Room>, src: Location, dst: Location)
    requires TwoSlots(rooms)
    ensures Bag(AfterDrop(rooms, src, dst)) == Bag(rooms)
  {
    var si := FindRoom(rooms, src.droppableId);
    var di := FindRoom(rooms, dst.droppableId);
    if si >= 0 && di >= 0 && Slot(rooms[si], src.index).Some? {
      var t := TargetSlot(dst.index);
      if src.droppableId == dst.droppableId {
        var ss := Reorder(rooms[si].students, src.index, t);
        assert {ss[0], ss[1]} == {rooms[si].students[0], rooms[si].students[1]};
        ReorderConserves(rooms, si, ss);
      } else {
        ExchangeConserves(rooms, si, src.index, di, t);
      }
    }
  }

  /** `Array.prototype.splice` on a copy with a non-negative start: removes
      `deleteCount` elements at `start` (both clamped to the array) and
      inserts `items` there. */
  function Splice<T>(a: seq<T>, start: nat, deleteCount: nat, items: seq<T>): seq<T> {
    var s := if start <= |a| then start else |a|;
    var n := if deleteCount <= |a| - s then deleteCount else |a| - s;
    a[..s] + items + a[s + n..]
  }

  /** Removing the dragged slot and inserting it again at the clamped
      destination index is the reorder of the two slots. */
  lemma SpliceReorder(ss: seq<Option<Student>>, from: nat, d: nat)
    requires |ss| == 2 && from <= 1
    ensures Splice(Splice(ss, from, 1, []), d, 0, [ss[from]]) == Reorder(ss, from, TargetSlot(d))
  {
    var rest := Splice(ss, from, 1, []);
    assert rest == [ss[1 - from]];
  }

  /** Splicing one item over a slot of a two-slot list overwrites that slot. */
  lemma SpliceOverwrite<T>(ss: seq<T>, i: nat, x: T)
    requires |ss| == 2 && i <= 1
    ensures Splice(ss, i, 1, [x]) == ss[i := x]
  {
  }

  // ---------------------------------------------------------------------
  // The popup's state

  class RoomBoard {
    var maleRooms: seq<Room>
    var femaleRooms: seq<Room>
    /** The students each gender's rooms were loaded with. */
    ghost const loadedMale: multiset<Student>
    ghost const loadedFemale: multiset<Student>

    /** Every room keeps its two slots, and drops only move students
        around: each gender's rooms seat exactly the students loaded. */
    ghost predicate Valid()
      reads this
    {
      && TwoSlots(maleRooms) && TwoSlots(femaleRooms)
      && Bag(maleRooms) == loadedMale && Bag(femaleRooms) == loadedFemale
    }

    /** The effect run when the roster arrives: rooms built from the two
        gender lists, or the supplied mock rooms for an empty roster. */
    constructor Load(roster: seq<RosterEntry>, scores: seq<int>, mockMale: seq<Room>, mockFemale: seq<Room>)
      requires |scores| == |roster|
      requires TwoSlots(mockMale) && TwoSlots(mockFemale)
      ensures Valid()
      ensures |roster| > 0 ==>
        maleRooms == Chunk(Pick(roster, scores, true), "M")
        && femaleRooms == Chunk(Pick(roster, scores, false), "F")
      ensures |roster| == 0 ==> maleRooms == mockMale && femaleRooms == mockFemale
      ensures |roster| > 0 ==>
        loadedMale == multiset(Pick(roster, scores, true)) && loadedFemale == multiset(Pick(roster, scores, false))
    {
      if |roster| > 0 {
        var males := Pick(roster, scores, true);
        var females := Pick(roster, scores, false);
        ChunkShape(males, "M");
        ChunkShape(females, "F");
        ChunkOccupants(males, "M");
        ChunkOccupants(females, "F");
        var m := CreateRooms(males, true);
        var f := CreateRooms(females, false);
        maleRooms, femaleRooms := m, f;
        loadedMale, loadedFemale := Bag(m), Bag(f);
      } else {
        maleRooms := mockMale;
        femaleRooms := mockFemale;
        loadedMale, loadedFemale := Bag(mockMale), Bag(mockFemale);
      }
    }

    /** `onDragEnd`: no destination or a drop across the "M" prefix changes
        nothing; otherwise the rooms of the source's gender take the drop. */
    method OnDragEnd(source: Location, destination: Option<Location>)
      requires Valid()
      modifies this
      ensures Valid()
      ensures destination.None? || StartsWith(source.droppableId, "M") != StartsWith(destination.value.droppableId, "M")
        ==> maleRooms == old(maleRooms) && femaleRooms == old(femaleRooms)
      ensures destination.Some? && StartsWith(source.droppableId, "M") && StartsWith(destination.value.droppableId, "M")
        ==> maleRooms == AfterDrop(old(maleRooms), source, destination.value) && femaleRooms == old(femaleRooms)
      ensures destination.Some? && !StartsWith(source.droppableId, "M") && !StartsWith(destination.value.droppableId, "M")
        ==> femaleRooms == AfterDrop(old(femaleRooms), source, destination.value) && maleRooms == old(maleRooms)
    {
      if destination.None? {
        return;
      }
      var dest := destination.value;
      var isSourceMale := StartsWith(source.droppableId, "M");
      var isDestMale := StartsWith(dest.droppableId, "M");
      if isSourceMale != isDestMale {
        return;
      }
      var rooms := if isSourceMale then maleRooms else femaleRooms;
      var newRooms := Drop(rooms, source, dest);
      if isSourceMale {
        maleRooms := newRooms;
      } else {
        femaleRooms := newRooms;
      }
    }

    /** `handleSave`: every male room, then every female room. The saved
        rooms seat the male rooms' students and then the female rooms', and,
        whatever drops came between, exactly the students loaded. */
    function Saved(): (r: seq<Room>)
      reads this
      ensures |r| == |maleRooms| + |femaleRooms|
      ensures r[..|maleRooms|] == maleRooms && r[|maleRooms|..] == femaleRooms
      ensures Occupants(r) == Occupants(maleRooms) + Occupants(femaleRooms)
      ensures Valid() ==> TwoSlots(r) && Bag(r) == loadedMale + loadedFemale
    {
      SaveOccupants(maleRooms, femaleRooms);
      maleRooms + femaleRooms
    }
  }

  /** The body of `onDragEnd` on the chosen gender's copy of the rooms,
      with the source's `splice` calls and slot assignments. */
  method Drop(rooms: seq<Room>, source: Location, destination: Location) returns (r: seq<Room>)
    requires TwoSlots(rooms)
    ensures r == AfterDrop(rooms, source, destination)
    ensures TwoSlots(r) && Bag(r) == Bag(rooms)
  {
    DropShape(rooms, source, destination);
    DropConserves(rooms, source, destination);
    r := rooms;
    var sourceRoomIndex := FindRoom(r, source.droppableId);
    var destRoomIndex := FindRoom(r, destination.droppableId);
    if sourceRoomIndex == -1 || destRoomIndex == -1 {
      return;
    }
    var sourceRoom := r[sourceRoomIndex];
    var destRoom := r[destRoomIndex];
    var draggedStudent := Slot(sourceRoom, source.index);
    if draggedStudent.None? {
      return;
    }
    if source.droppableId == destination.droppableId {
      var newStudents := sourceRoom.students;
      var removed := newStudents[source.index];
      newStudents := Splice(newStudents, source.index, 1, []);
      newStudents := Splice(newStudents, destination.index, 0, [removed]);
      SpliceReorder(sourceRoom.students, source.index, destination.index);
      assert newStudents == Reorder(sourceRoom.students, source.index, TargetSlot(destination.index));
      r := r[sourceRoomIndex := sourceRoom.(students := newStudents)];
    } else {
      var newSourceStudents := Splice(sourceRoom.students, source.index, 1, [None]);
      SpliceOverwrite(sourceRoom.students, source.index, None);
      var newDestStudents := destRoom.students;
      var targetIndex := TargetSlot(destination.index);
      var targetStudent := newDestStudents[targetIndex];
      if targetStudent.Some? {
        newDestStudents := newDestStudents[targetIndex := draggedStudent];
        SpliceOverwrite(newSourceStudents, source.index, targetStudent);
        newSourceStudents := Splice(newSourceStudents, source.index, 1, [targetStudent]);
      } else {
        newDestStudents := newDestStudents[targetIndex := draggedStudent];
      }
      assert newSourceStudents == sourceRoom.students[source.index := destRoom.students[targetIndex]];
      r := r[sourceRoomIndex := sourceRoom.(students := newSourceStudents)];
      r := r[destRoomIndex := destRoom.(students := newDestStudents)];
    }
  }

  /** Saving seats exactly the students currently in the two lists. */
  lemma SaveOccupants(male: seq<Room>, female: seq<Room>)
    ensures Occupants(male + female) == Occupants(male) + Occupants(female)
    ensures Bag(male + female) == Bag(male) + Bag(female)
  {
    OccupantsAppend(male, female);
  }
}

/** common/array.c: NUL-separated string lists closed by an empty string. */
module StringList {
  import opened Bytes

  datatype Parsed = Parsed(list: seq<CString>, used: nat)

  predicate AllNonEmpty(list: seq<CString>) {
    forall i | 0 <= i < |list| :: list[i] != []
  }

  /** The bytes of a list: every element with its NUL, then one more NUL. */
  function Serialize(list: seq<CString>): (b: bytes)
    ensures |b| >= 1
  {
    if list == [] then [0] else list[0] + [0] + Serialize(list[1..])
  }

  /** The bytes the strings take, each with its NUL. */
  function Room(list: seq<CString>): nat {
    if list == [] then 0 else |list[0]| + 1 + Room(list[1..])
  }

  /** The strings lie one behind the other, the i-th behind the room of those before it, and a last NUL
      ends the list. */
  lemma {:induction false} Layout(list: seq<CString>)
    ensures |Serialize(list)| == Room(list) + 1 && Serialize(list)[Room(list)] == 0
    ensures forall i | 0 <= i < |list| ::
              && Room(list[..i]) + |list[i]| < Room(list)
              && Serialize(list)[Room(list[..i])..][..|list[i]| + 1] == list[i] + [0]
  {
    if list != [] {
      var tail := list[1..];
      Layout(tail);
      forall i | 0 <= i < |list|
        ensures Room(list[..i]) + |list[i]| < Room(list)
        ensures Serialize(list)[Room(list[..i])..][..|list[i]| + 1] == list[i] + [0]
      {
        if i == 0 {
          assert Serialize(list)[0..] == list[0] + [0] + Serialize(tail);
        } else {
          LaidBehind(list, i);
        }
      }
    }
  }

  lemma LaidBehind(list: seq<CString>, i: nat)
    requires 0 < i < |list| && |Serialize(list[1..])| == Room(list[1..]) + 1
    requires Room(list[1..][..i - 1]) + |list[i]| < Room(list[1..])
    requires Serialize(list[1..])[Room(list[1..][..i - 1])..][..|list[i]| + 1] == list[i] + [0]
    ensures Room(list[..i]) + |list[i]| < Room(list)
    ensures Serialize(list)[Room(list[..i])..][..|list[i]| + 1] == list[i] + [0]
  {
    assert list[..i][1..] == list[1..][..i - 1] && list[..i][0] == list[0];
    assert Serialize(list)[Room(list[..i])..] == Serialize(list[1..])[Room(list[1..][..i - 1])..];
  }

  /** The reader, one element at a time from position at: the list and the bytes it took. */
  function ParseAt(b: bytes, at: nat): (r: Option<Parsed>)
    requires at <= |b|
    ensures r.Some? ==> 1 <= r.value.used <= |b| - at
    decreases |b| - at
  {
    if at == |b| then
      None
    else if b[at] == 0 then
      Some(Parsed([], 1))
    else
      var end := EndOfString(b, at);
      if end == |b| then
        None
      else
        match ParseAt(b, end + 1)
        case None => None
        case Some(p) => Some(Parsed([StringAt(b, at)] + p.list, end + 1 - at + p.used))
  }

  function Parse(b: bytes): (r: Option<Parsed>)
    ensures r.Some? ==> 1 <= r.value.used <= |b|
  {
    ParseAt(b, 0)
  }

  /** Position i ends a list: it holds a NUL and is the first byte or follows a NUL. */
  predicate EndsList(b: bytes, i: nat) {
    i < |b| && b[i] == 0 && (i == 0 || b[i - 1] == 0)
  }

  /** Acceptance and position: parsing succeeds exactly when a list end lies in the window, and
      then the bytes used run through the first such end. */
  lemma ParseLanguage(b: bytes)
    ensures Parse(b).Some? <==> exists i: nat :: EndsList(b, i)
    ensures Parse(b).Some? ==>
              var used := Parse(b).value.used;
              EndsList(b, used - 1) && forall i: nat | EndsList(b, i) :: used - 1 <= i
  {
    ParseLanguageAt(b, 0);
  }

  lemma {:induction false} ParseLanguageAt(b: bytes, at: nat)
    requires at <= |b| && (at > 0 ==> b[at - 1] == 0)
    ensures ParseAt(b, at).Some? <==> exists i: nat :: i >= at && EndsList(b, i)
    ensures ParseAt(b, at).Some? ==>
              var last := at + ParseAt(b, at).value.used - 1;
              EndsList(b, last) && forall i: nat | i >= at && EndsList(b, i) :: last <= i
    decreases |b| - at
  {
    if at < |b| {
      if b[at] == 0 {
        assert EndsList(b, at);
      } else {
        NoEndInside(b, at);
        if EndOfString(b, at) < |b| {
          ParseLanguageAt(b, EndOfString(b, at) + 1);
        }
      }
    }
  }

  lemma NoEndInside(b: bytes, at: nat)
    requires at < |b| && b[at] != 0
    ensures forall i: nat | at <= i <= EndOfString(b, at) :: !EndsList(b, i)
  {
  }

  /** Serialising what was parsed gives back exactly the bytes used. */
  lemma {:induction false} ParseThenSerialize(b: bytes, at: nat)
    requires at <= |b| && ParseAt(b, at).Some?
    ensures var p := ParseAt(b, at).value;
            AllNonEmpty(p.list) && Serialize(p.list) == b[at..at + p.used]
    decreases |b| - at
  {
    if b[at] == 0 {
      SerializeNothing(b, at);
    } else {
      var end := EndOfString(b, at);
      ParseThenSerialize(b, end + 1);
      var q := ParseAt(b, end + 1).value;
      SerializeElement(b, at, end, q);
    }
  }

  lemma SerializeNothing(b: bytes, at: nat)
    requires at < |b| && b[at] == 0
    ensures ParseAt(b, at) == Some(Parsed([], 1)) && Serialize([]) == b[at..at + 1]
  {
  }

  lemma SerializeElement(b: bytes, at: nat, end: nat, q: Parsed)
    requires at < end < |b| && EndOfString(b, at) == end && b[end] == 0 && ParseAt(b, end + 1) == Some(q)
    requires AllNonEmpty(q.list) && Serialize(q.list) == b[end + 1..end + 1 + q.used]
    ensures ParseAt(b, at).Some?
    ensures var p := ParseAt(b, at).value;
            AllNonEmpty(p.list) && Serialize(p.list) == b[at..at + p.used]
  {
    assert ParseAt(b, at) == Some(Parsed([StringAt(b, at)] + q.list, end + 1 - at + q.used));
    SerializeCons(b[at..end], q.list);
    Slices(b, at, end, end + 1 + q.used);
  }

  lemma SerializeCons(s: CString, list: seq<CString>)
    requires s != [] && AllNonEmpty(list)
    ensures AllNonEmpty([s] + list) && Serialize([s] + list) == s + [0] + Serialize(list)
  {
    assert ([s] + list)[1..] == list;
  }

  lemma Slices(b: bytes, from: nat, mid: nat, to: nat)
    requires from <= mid < to <= |b|
    ensures b[from..to] == b[from..mid] + [b[mid]] + b[mid + 1..to]
  {
  }

  /** How many leading elements are not empty. */
  function FirstEmpty(list: seq<CString>): (k: nat)
    ensures k <= |list| && AllNonEmpty(list[..k])
    ensures k < |list| ==> list[k] == []
  {
    if list == [] || list[0] == [] then
      0
    else
      var k := 1 + FirstEmpty(list[1..]);
      assert list[..k] == [list[0]] + list[1..][..k - 1];
      k
  }

  /** What survives of a list: its leading non-empty elements. */
  function Cut(list: seq<CString>): (r: seq<CString>)
    ensures AllNonEmpty(r) && r <= list
    ensures AllNonEmpty(list) ==> r == list
  {
    list[..FirstEmpty(list)]
  }

  /** Reading a serialised list, whatever follows it, yields its cut: an empty element is
      indistinguishable from the end of the list. */
  lemma SerializeThenParse(list: seq<CString>, rest: bytes)
    ensures Parse(Serialize(list) + rest) == Some(Parsed(Cut(list), |Serialize(Cut(list))|))
  {
    if FirstEmpty(list) < |list| {
      var behind := Serialize(list[FirstEmpty(list) + 1..]);
      SerializeSplit(list);
      assert Serialize(list) + rest == Serialize(Cut(list)) + (behind + rest);
      ParseFrom(Serialize(list) + rest, 0, Cut(list), behind + rest);
    } else {
      ParseFrom(Serialize(list) + rest, 0, list, rest);
    }
  }

  /** The reader at position at takes the list and its bytes. */
  ghost predicate Reads(b: bytes, at: nat, list: seq<CString>)
    requires at <= |b|
  {
    ParseAt(b, at) == Some(Parsed(list, |Serialize(list)|))
  }

  lemma {:induction false} ParseFrom(b: bytes, at: nat, list: seq<CString>, rest: bytes)
    requires at <= |b| && AllNonEmpty(list) && b[at..] == Serialize(list) + rest
    ensures Reads(b, at, list)
    decreases |list|
  {
    if list == [] {
      assert b[at..][0] == 0;
    } else {
      HeadAndTail(list);
      PeelElement(b, at, list, rest);
      ParseFrom(b, at + |list[0]| + 1, list[1..], rest);
      ParseElement(b, at, at + |list[0]|, list[1..]);
    }
  }

  lemma HeadAndTail(list: seq<CString>)
    requires list != [] && AllNonEmpty(list)
    ensures |list[0]| > 0 && AllNonEmpty(list[1..]) && [list[0]] + list[1..] == list
  {
  }

  lemma ParseElement(b: bytes, at: nat, end: nat, tail: seq<CString>)
    requires at < end < |b| && EndOfString(b, at) == end && Reads(b, end + 1, tail)
    ensures Reads(b, at, [StringAt(b, at)] + tail)
  {
  }

  lemma PeelElement(b: bytes, at: nat, list: seq<CString>, rest: bytes)
    requires at <= |b| && list != [] && b[at..] == Serialize(list) + rest
    ensures var end := at + |list[0]|;
            && end < |b| && b[at..end] == list[0] && b[end] == 0 && EndOfString(b, at) == end
            && b[end + 1..] == Serialize(list[1..]) + rest
  {
    Peel(b, at, list[0], Serialize(list[1..]), rest);
  }

  lemma Peel(b: bytes, at: nat, head: CString, tail: bytes, rest: bytes)
    requires at <= |b| && b[at..] == head + [0] + tail + rest
    ensures var end := at + |head|;
            && end < |b| && b[at..end] == head && b[end] == 0 && EndOfString(b, at) == end
            && b[end + 1..] == tail + rest
  {
    assert b[at..][..|head|] == head && b[at..][|head|] == 0;
    assert b[at..][|head| + 1..] == tail + rest;
    EndOfElement(b, at, head);
  }

  lemma EndOfElement(b: bytes, at: nat, s: CString)
    requires at + |s| < |b| && b[at..at + |s|] == s && b[at + |s|] == 0
    ensures EndOfString(b, at) == at + |s|
  {
    forall i | at <= i < at + |s|
      ensures b[i] != 0
    {
      assert b[i] == b[at..at + |s|][i - at];
      assert s[i - at] in s;
    }
  }

  /** The bytes of a list with an empty element: the cut ends there and the rest starts a list. */
  lemma {:induction false} SerializeSplit(list: seq<CString>)
    requires FirstEmpty(list) < |list|
    ensures Serialize(list) == Serialize(Cut(list)) + Serialize(list[FirstEmpty(list) + 1..])
  {
    if list[0] == [] {
      assert Serialize(list) == [0] + Serialize(list[1..]);
    } else {
      var tail := list[1..];
      SerializeSplit(tail);
      assert Cut(list)[1..] == Cut(tail);
      assert list[FirstEmpty(list) + 1..] == tail[FirstEmpty(tail) + 1..];
      assert Serialize(list)
          == list[0] + [0] + (Serialize(Cut(tail)) + Serialize(tail[FirstEmpty(tail) + 1..]));
    }
  }

  lemma {:induction false} SerializeAppend(list: seq<CString>, s: CString)
    ensures Serialize(list + [s]) == Serialize(list)[..|Serialize(list)| - 1] + s + [0, 0]
  {
    if list == [] {
      assert (list + [s])[1..] == [];
    } else {
      SerializeAppend(list[1..], s);
      assert (list + [s])[1..] == list[1..] + [s];
    }
  }

  /** One more element of a list, but for the list's last NUL. */
  lemma SerializeMore(list: seq<CString>, i: nat)
    requires i < |list|
    ensures var before, after := Serialize(list[..i]), Serialize(list[..i + 1]);
            && |after| == |before| + |list[i]| + 1
            && after[..|after| - 1] == before[..|before| - 1] + (list[i] + [0])
  {
    SerializeAppend(list[..i], list[i]);
    assert list[..i + 1] == list[..i] + [list[i]];
  }

  /** What the reader finds at p, when it is not the end of the list, and behind it. */
  lemma NextElement(b: bytes, p: nat, list: seq<CString>, used: nat)
    requires p < |b| && ParseAt(b, p) == Some(Parsed(list, used)) && list != []
    ensures IsString(b, p) && Denotes(b, p, list[0])
    ensures var q := EndOfString(b, p) + 1;
            q < p + used && ParseAt(b, q) == Some(Parsed(list[1..], p + used - q))
  {
  }

  lemma EndOfList(b: bytes, p: nat, used: nat)
    requires p <= |b| && ParseAt(b, p) == Some(Parsed([], used))
    ensures used == 1
  {
  }

  /** array_sanity_test: the number of strings before the list end, or -1. The method is given the
      window of size bytes and nothing else, so every byte it looks at lies inside. */
  method ArraySanityTest(view: bytes) returns (result: int)
    requires view != []
    ensures result == if Parse(view).Some? then |Parse(view).value.list| else -1
  {
    var size := |view|;
    result := 0;
    var p := 0;
    var len := 0;
    while view[p] != 0
      invariant 0 <= len == p < size && result >= 0
      invariant Parse(view).Some? <==> ParseAt(view, p).Some?
      invariant Parse(view).Some? ==>
                  |Parse(view).value.list| == result + |ParseAt(view, p).value.list|
      decreases size - len
    {
      ghost var start := p;
      while view[p] != 0
        invariant start <= len == p < size
        invariant EndOfString(view, start) == EndOfString(view, p)
        decreases size - len
      {
        p := p + 1;
        len := len + 1;
        if len >= size {
          return -1;
        }
      }
      p := p + 1;
      len := len + 1;
      if len >= size {
        return -1;
      }
      result := result + 1;
    }
  }

  /** The pointer p into memory denotes the string s: s lies at p and a NUL follows it. */
  ghost predicate Denotes(memory: bytes, p: nat, s: CString) {
    p + |s| < |memory| && memory[p..p + |s|] == s && memory[p + |s|] == 0
  }

  /** array_parse: pointers to the strings inside the window, and the bytes used. The elements stay
      where they are: the parsed array points into the caller's buffer. */
  method ArrayParse(view: bytes) returns (pointers: seq<nat>, used: int)
    ensures if Parse(view).None? then used == -1
            else
              used == Parse(view).value.used && |pointers| == |Parse(view).value.list|
              && forall i | 0 <= i < |pointers| ::
                   Denotes(view, pointers[i], Parse(view).value.list[i])
  {
    pointers := [];
    if |view| == 0 {
      return pointers, -1;
    }
    var count := ArraySanityTest(view);
    if count < 0 {
      return pointers, -1;
    }
    ghost var all := Parse(view).value;
    var p := 0;
    var i := 0;
    while i < count
      invariant 0 <= i <= count == |all.list| && |pointers| == i
      invariant 0 <= p < all.used <= |view|
      invariant ParseAt(view, p) == Some(Parsed(all.list[i..], all.used - p))
      invariant forall j | 0 <= j < i :: Denotes(view, pointers[j], all.list[j])
    {
      NextElement(view, p, all.list[i..], all.used - p);
      pointers := pointers + [p];
      p := SkipString(view, p);
      p := p + 1;
      i := i + 1;
    }
    EndOfList(view, p, all.used - p);
    used := p + 1;
  }

  /** The inner loop of array_parse. */
  method SkipString(view: bytes, from: nat) returns (p: nat)
    requires IsString(view, from)
    ensures p == EndOfString(view, from)
  {
    p := from;
    while view[p] != 0
      invariant from <= p <= EndOfString(view, from)
      invariant EndOfString(view, from) == EndOfString(view, p)
      decreases |view| - p
    {
      p := p + 1;
    }
  }

  /** array_get_size: exactly the bytes array_serialize needs. */
  method ArrayGetSize(list: seq<CString>) returns (size: nat)
    ensures size == |Serialize(list)|
  {
    size := 0;
    for i := 0 to |list|
      invariant size + 1 == |Serialize(list[..i])|
    {
      SerializeAppend(list[..i], list[i]);
      assert list[..i + 1] == list[..i] + [list[i]];
      size := size + |list[i]|;
      size := size + 1;
    }
    assert list[..|list|] == list;
    size := size + 1;
  }

  /** array_serialize: writes the list at base if it fits in length bytes, and never outside them. */
  method ArraySerialize(list: seq<CString>, buffer: array<byte>, base: nat, length: nat)
    returns (size: int)
    requires base + length <= buffer.Length
    modifies buffer
    ensures size == if |Serialize(list)| <= length then |Serialize(list)| else -1
    ensures size >= 0 ==> buffer[base..base + size] == Serialize(list)
    ensures forall i | 0 <= i < base || base + length <= i < buffer.Length ::
              buffer[i] == old(buffer[i])
    ensures size >= 0 ==>
              forall i | base + size <= i < buffer.Length :: buffer[i] == old(buffer[i])
  {
    size := SerializeStrings(list, buffer, base, length);
    if size < 0 || size + 1 > length {
      return -1;
    }
    WriteNul(buffer, base, size);
    size := size + 1;
    SerializeEnds(list);
  }

  /** The list's last NUL behind the size bytes written from base on. */
  method WriteNul(buffer: array<byte>, base: nat, size: nat)
    requires base + size < buffer.Length
    modifies buffer
    ensures buffer[base..base + size + 1] == old(buffer[base..base + size]) + [0]
    ensures forall j | 0 <= j < buffer.Length && j != base + size :: buffer[j] == old(buffer[j])
  {
    buffer[base + size] := 0;
  }

  /** The loop of array_serialize: the strings with their NULs, or -1 where they do not fit. */
  method SerializeStrings(list: seq<CString>, buffer: array<byte>, base: nat, length: nat)
    returns (size: int)
    requires base + length <= buffer.Length
    modifies buffer
    ensures size == if |Serialize(list)| - 1 <= length then |Serialize(list)| - 1 else -1
    ensures size >= 0 ==> buffer[base..base + size] == Serialize(list)[..size]
    ensures forall i | 0 <= i < base || base + length <= i < buffer.Length ::
              buffer[i] == old(buffer[i])
    ensures size >= 0 ==>
              forall i | base + size <= i < buffer.Length :: buffer[i] == old(buffer[i])
  {
    size := 0;
    for i := 0 to |list|
      invariant size + 1 == |Serialize(list[..i])|
      invariant 0 <= size <= length
      invariant buffer[base..base + size] == Serialize(list[..i])[..size]
      invariant forall j | 0 <= j < base || base + size <= j < buffer.Length ::
                  buffer[j] == old(buffer[j])
    {
      var now := |list[i]| + 1;
      SerializeMore(list, i);
      if size + now > length {
        SerializePrefix(list, i + 1);
        return -1;
      }
      WriteString(buffer, base, size, list[i]);
      size := size + now;
    }
    assert list[..|list|] == list;
  }

  /** memcpy of a string with its NUL behind the size bytes written from base on. */
  method WriteString(buffer: array<byte>, base: nat, size: nat, s: CString)
    requires base + size + |s| < buffer.Length
    modifies buffer
    ensures buffer[base..base + size + |s| + 1] == old(buffer[base..base + size]) + (s + [0])
    ensures forall j | 0 <= j < base || base + size + |s| < j < buffer.Length :: buffer[j] == old(buffer[j])
  {
    var p := base + size;
    forall j | 0 <= j < |s| + 1 {
      buffer[p + j] := if j < |s| then s[j] else 0;
    }
  }

  lemma {:induction false} SerializePrefix(list: seq<CString>, k: nat)
    requires k <= |list|
    ensures |Serialize(list[..k])| <= |Serialize(list)|
    decreases |list| - k
  {
    if k < |list| {
      SerializeAppend(list[..k], list[k]);
      assert list[..k + 1] == list[..k] + [list[k]];
      SerializePrefix(list, k + 1);
    } else {
      assert list[..k] == list;
    }
  }

  lemma {:induction false} SerializeEnds(list: seq<CString>)
    ensures Serialize(list) == Serialize(list)[..|Serialize(list)| - 1] + [0]
  {
    if list != [] {
      SerializeEnds(list[1..]);
      assert Serialize(list)[|Serialize(list)| - 1] == 0;
    }
  }

  /** array_t as the client fills it: a block of slots that grows by doubling. */
  class StringArray {
    const works: bool
    var slots: array<CString>
    var count: nat
    var capacity: nat

    ghost predicate Valid()
      reads this
    {
      count <= capacity == slots.Length
    }

    ghost function Contents(): seq<CString>
      requires Valid()
      reads this, slots
    {
      slots[..count]
    }

    constructor (works: bool)
      ensures Valid() && fresh(slots) && Contents() == [] && capacity == 0 && this.works == works
    {
      this.works := works;
      capacity := 0;
      count := 0;
      slots := new CString[0];
    }

    /** array_push: appends, and reallocates exactly when the block is full. Without memory for the string
        or the block - which works rules out - it fails and leaves the array as it was. */
    method Push(str: CString) returns (ret: int)
      requires Valid()
      modifies this, slots
      ensures Valid() && (ret == 0 || ret == -1)
      ensures works ==> ret == 0
      ensures ret == -1 ==> Contents() == old(Contents()) && slots == old(slots)
      ensures ret == 0 ==> Contents() == old(Contents()) + [str]
      ensures ret == 0 ==>
                if old(count < capacity) then slots == old(slots) && capacity == old(capacity)
                else fresh(slots) && capacity == if old(count) == 0 then 10 else 2 * old(count)
    {
      var copied: bool, grown: bool := *, *;
      if !copied && !works {
        return -1;
      }
      if count == capacity {
        var s := if count == 0 then 10 else count * 2;
        if !grown && !works {
          return -1;
        }
        var a := new CString[s](_ => []);
        forall i | 0 <= i < count {
          a[i] := slots[i];
        }
        assert a[..count] == slots[..count];
        capacity := s;
        slots := a;
      }
      slots[count] := str;
      count := count + 1;
      ret := 0;
    }
  }
}

/** common/cmdline.c: the process title. The strings of argv and environ lie one after the other in one
    stretch of memory; they are copied out, and the stretch is then overwritten with titles. */
module CommandLine {
  import opened Bytes

  const MAX_PREFIX_LENGTH := 20
  const MAX_STATIC_BUFFER := 65536
  const ADDRESS_BYTES := 8
  const PERCENT: byte := 37
  const DASH: byte := 45
  const SLASH: byte := 47

  /** A char pointer: a block of memory and an offset into it. */
  datatype Ptr = Ptr(block: array<byte>, off: nat)

  /** One slot of a pointer vector. */
  datatype Slot = Unset | Null | To(p: Ptr)

  /** The strings at ps, one right behind the other. */
  predicate Chain(memory: bytes, ps: seq<nat>) {
    && (forall i | 0 <= i < |ps| :: IsString(memory, ps[i]))
    && (forall i | 0 < i < |ps| :: Follows(memory, ps, i))
  }

  predicate Follows(memory: bytes, ps: seq<nat>, i: nat)
    requires 0 < i < |ps| && forall i | 0 <= i < |ps| :: IsString(memory, ps[i])
  {
    assert IsString(memory, ps[i - 1]);
    ps[i] == EndOfString(memory, ps[i - 1]) + 1
  }

  /** The strings at ps with their NULs, in order. */
  function Joined(memory: bytes, ps: seq<nat>): bytes
    requires forall i | 0 <= i < |ps| :: IsString(memory, ps[i])
  {
    if ps == [] then
      []
    else
      var last := ps[|ps| - 1];
      assert IsString(memory, last);
      Joined(memory, ps[..|ps| - 1]) + memory[last..EndOfString(memory, last) + 1]
  }

  /** A chain of strings fills its stretch of memory completely: nothing but the strings and their
      NULs from the first byte to the last NUL. */
  lemma ChainFills(memory: bytes, ps: seq<nat>)
    requires Chain(memory, ps) && ps != []
    ensures ps[0] <= EndOfString(memory, ps[0]) <= EndOfString(memory, ps[|ps| - 1]) < |memory|
    ensures memory[ps[0]..EndOfString(memory, ps[|ps| - 1]) + 1] == Joined(memory, ps)
  {
    FirstFill(memory, ps, |ps|);
    assert ps[..|ps|] == ps;
  }

  lemma {:induction false} FirstFill(memory: bytes, ps: seq<nat>, k: nat)
    requires Chain(memory, ps) && 1 <= k <= |ps|
    ensures IsString(memory, ps[0]) && IsString(memory, ps[k - 1])
    ensures ps[0] <= EndOfString(memory, ps[0]) <= EndOfString(memory, ps[k - 1]) < |memory|
    ensures memory[ps[0]..EndOfString(memory, ps[k - 1]) + 1] == Joined(memory, ps[..k])
    decreases k
  {
    var last := ps[k - 1];
    assert IsString(memory, last);
    if k > 1 {
      JoinedStep(memory, ps, k);
      FirstFill(memory, ps, k - 1);
      assert Follows(memory, ps, k - 1);
      OneMoreFills(memory, ps[0], last, EndOfString(memory, last), Joined(memory, ps[..k - 1]));
    } else {
      JoinedFirst(memory, ps);
    }
  }

  lemma JoinedFirst(memory: bytes, ps: seq<nat>)
    requires ps != [] && forall i | 0 <= i < |ps| :: IsString(memory, ps[i])
    ensures IsString(memory, ps[0]) && Joined(memory, ps[..1]) == memory[ps[0]..EndOfString(memory, ps[0]) + 1]
  {
    JoinedStep(memory, ps, 1);
    assert ps[..0] == [];
  }

  lemma OneMoreFills(memory: bytes, first: nat, last: nat, end: nat, joined: bytes)
    requires first <= last <= end < |memory| && memory[first..last] == joined
    ensures memory[first..end + 1] == joined + memory[last..end + 1]
  {
  }

  lemma JoinedStep(memory: bytes, ps: seq<nat>, k: nat)
    requires 1 <= k <= |ps| && forall i | 0 <= i < |ps| :: IsString(memory, ps[i])
    ensures IsString(memory, ps[k - 1])
    ensures Joined(memory, ps[..k])
         == Joined(memory, ps[..k - 1]) + memory[ps[k - 1]..EndOfString(memory, ps[k - 1]) + 1]
  {
    assert ps[..k][..k - 1] == ps[..k - 1];
    assert IsString(memory, ps[k - 1]);
  }

  /** How many of the pointers, from the k-th on, continue the chain whose last string ends at end. */
  function Continues(memory: bytes, end: nat, ps: seq<Option<nat>>, k: nat): (n: nat)
    requires k <= |ps| && forall i | k <= i < |ps| && ps[i].Some? :: IsString(memory, ps[i].value)
    ensures k <= n <= |ps| && forall i | k <= i < n :: ps[i].Some?
    decreases |ps| - k
  {
    if k < |ps| && ps[k] == Some(end + 1) then
      assert IsString(memory, ps[k].value);
      Continues(memory, EndOfString(memory, ps[k].value), ps, k + 1)
    else k
  }

  /** argv lies in one piece: every string begins behind the NUL of the one before it. */
  predicate Contiguous(memory: bytes, argv: seq<Option<nat>>) {
    forall i | 0 < i < |argv| :: NextTo(memory, argv, i)
  }

  predicate NextTo(memory: bytes, argv: seq<Option<nat>>, i: nat)
    requires 0 < i < |argv|
  {
    && argv[i - 1].Some? && argv[i - 1].value <= |memory|
    && argv[i] == Some(EndOfString(memory, argv[i - 1].value) + 1)
  }

  /** The contiguity loop counts every argument from the k-th on if and only if each follows the one before
      it. */
  lemma {:induction false} CountsAll(memory: bytes, argv: seq<Option<nat>>, k: nat)
    requires 0 < k <= |argv| && argv[k - 1].Some? && IsString(memory, argv[k - 1].value)
    requires forall i | 0 <= i < |argv| && argv[i].Some? :: IsString(memory, argv[i].value)
    ensures Continues(memory, EndOfString(memory, argv[k - 1].value), argv, k) == |argv|
       <==> forall i | k <= i < |argv| :: NextTo(memory, argv, i)
    decreases |argv| - k
  {
    if k < |argv| {
      assert argv[k] == Some(EndOfString(memory, argv[k - 1].value) + 1) <==> NextTo(memory, argv, k);
      if NextTo(memory, argv, k) {
        CountsAll(memory, argv, k + 1);
      }
    }
  }

  /** Counting does not depend on what stands in front. */
  lemma {:induction false} ContinuesBehind(memory: bytes, end: nat, front: seq<Option<nat>>,
                                           ps: seq<Option<nat>>, k: nat)
    requires k <= |ps| && forall i | 0 <= i < |ps| && ps[i].Some? :: IsString(memory, ps[i].value)
    ensures forall i | |front| + k <= i < |front + ps| && (front + ps)[i].Some? ::
              IsString(memory, (front + ps)[i].value)
    ensures Continues(memory, end, front + ps, |front| + k) == |front| + Continues(memory, end, ps, k)
    decreases |ps| - k
  {
    if k < |ps| && ps[k] == Some(end + 1) {
      ContinuesBehind(memory, EndOfString(memory, end + 1), front, ps, k + 1);
    }
  }

  /** ps continues argv to its end exactly when both together lie in one piece. */
  lemma BothInOnePiece(memory: bytes, argv: seq<Option<nat>>, ps: seq<Option<nat>>)
    requires forall i | 0 <= i < |argv| && argv[i].Some? :: IsString(memory, argv[i].value)
    requires forall i | 0 <= i < |ps| && ps[i].Some? :: IsString(memory, ps[i].value)
    requires argv != [] && argv[|argv| - 1].Some? && IsString(memory, argv[|argv| - 1].value)
    ensures Contiguous(memory, argv + ps)
       <==> Contiguous(memory, argv)
            && Continues(memory, EndOfString(memory, argv[|argv| - 1].value), ps, 0) == |ps|
  {
    var all := argv + ps;
    ContinuesBehind(memory, EndOfString(memory, argv[|argv| - 1].value), argv, ps, 0);
    CountsAll(memory, all, |argv|);
    FrontInOnePiece(memory, argv, ps);
  }

  /** The first of the pointers continues argv exactly when the two lie in one piece. */
  lemma FirstInOnePiece(memory: bytes, argv: seq<Option<nat>>, vars: seq<nat>)
    requires forall i | 0 <= i < |argv| && argv[i].Some? :: IsString(memory, argv[i].value)
    requires forall i | 0 <= i < |vars| :: IsString(memory, vars[i])
    requires argv != [] && argv[|argv| - 1].Some? && IsString(memory, argv[|argv| - 1].value)
    requires Contiguous(memory, argv)
    ensures Continues(memory, EndOfString(memory, argv[|argv| - 1].value), Present(vars), 0) > 0
       <==> vars != [] && Contiguous(memory, argv + Present(vars[..1]))
  {
    if vars != [] {
      var first := Present(vars[..1]);
      assert first[0] == Present(vars)[0];
      BothInOnePiece(memory, argv, first);
    }
  }

  /** The front of what lies in one piece does. */
  lemma FrontInOnePiece(memory: bytes, argv: seq<Option<nat>>, ps: seq<Option<nat>>)
    ensures Contiguous(memory, argv)
       <==> forall i | 0 < i < |argv| :: NextTo(memory, argv + ps, i)
    ensures Contiguous(memory, argv + ps) ==> Contiguous(memory, argv)
  {
    assert forall i | 0 < i < |argv| :: NextTo(memory, argv + ps, i) <==> NextTo(memory, argv, i);
  }

  /** The addresses among pointers that are all there. */
  function Addresses(ps: seq<Option<nat>>): (r: seq<nat>)
    requires forall i | 0 <= i < |ps| :: ps[i].Some?
    ensures |r| == |ps| && forall i | 0 <= i < |ps| :: r[i] == ps[i].value
  {
    seq(|ps|, i requires 0 <= i < |ps| => ps[i].value)
  }

  /** A NULL-terminated pointer vector, without its terminator. */
  function Present(ps: seq<nat>): (r: seq<Option<nat>>)
    ensures |r| == |ps| && forall i | 0 <= i < |ps| :: r[i] == Some(ps[i])
  {
    seq(|ps|, i requires 0 <= i < |ps| => Some(ps[i]))
  }

  /** What continues a chain makes a longer chain. */
  lemma {:induction false} FoundIsChain(memory: bytes, found: seq<nat>, ps: seq<Option<nat>>, k: nat)
    requires k <= |ps| && forall i | k <= i < |ps| && ps[i].Some? :: IsString(memory, ps[i].value)
    requires found != [] && Chain(memory, found)
    ensures var n := Continues(memory, EndOfString(memory, found[|found| - 1]), ps, k);
            Chain(memory, found + Addresses(ps[k..n]))
    decreases |ps| - k
  {
    var end := EndOfString(memory, found[|found| - 1]);
    var n := Continues(memory, end, ps, k);
    if k < |ps| && ps[k] == Some(end + 1) {
      var longer := found + [end + 1];
      ChainGrows(memory, found);
      FoundIsChain(memory, longer, ps, k + 1);
      AddressesStep(found, ps, k, n);
    } else {
      assert found + Addresses(ps[k..n]) == found;
    }
  }

  lemma AddressesStep(found: seq<nat>, ps: seq<Option<nat>>, k: nat, n: nat)
    requires k < n <= |ps| && forall i | k <= i < n :: ps[i].Some?
    ensures found + Addresses(ps[k..n]) == found + [ps[k].value] + Addresses(ps[k + 1..n])
  {
  }

  lemma ChainGrows(memory: bytes, found: seq<nat>)
    requires found != [] && Chain(memory, found)
    requires IsString(memory, EndOfString(memory, found[|found| - 1]) + 1)
    ensures Chain(memory, found + [EndOfString(memory, found[|found| - 1]) + 1])
  {
    var longer := found + [EndOfString(memory, found[|found| - 1]) + 1];
    assert forall i | 0 <= i < |longer| :: IsString(memory, longer[i]);
    forall i | 0 < i < |longer|
      ensures Follows(memory, longer, i)
    {
      if i < |found| {
        assert Follows(memory, found, i);
      }
    }
  }

  /** basename(3) */
  function Basename(path: bytes): bytes {
    if path == [] then [46]
    else if path[|path| - 1] != SLASH then LastComponent(path)
    else if forall i | 0 <= i < |path| :: path[i] == SLASH then [SLASH]
    else Basename(path[..|path| - 1])
  }

  function LastComponent(path: bytes): bytes {
    if path == [] || path[|path| - 1] == SLASH then []
    else LastComponent(path[..|path| - 1]) + [path[|path| - 1]]
  }

  /** The name is what stands behind the last slash, slashes at the end not counted. */
  lemma {:induction false} BasenameIs(dir: bytes, name: bytes, slashes: bytes)
    requires name != [] && SLASH !in name && (dir != [] ==> dir[|dir| - 1] == SLASH)
    requires forall i | 0 <= i < |slashes| :: slashes[i] == SLASH
    ensures Basename(dir + name + slashes) == name
    decreases |slashes|
  {
    var path := dir + name + slashes;
    assert path[|dir|] == name[0] && name[0] in name;
    if slashes == [] {
      assert path == dir + name;
      assert path[|path| - 1] == name[|name| - 1] && name[|name| - 1] in name;
      LastComponentIs(dir, name);
    } else {
      assert path[..|path| - 1] == dir + name + slashes[..|slashes| - 1];
      BasenameIs(dir, name, slashes[..|slashes| - 1]);
    }
  }

  lemma {:induction false} LastComponentIs(dir: bytes, name: bytes)
    requires SLASH !in name && (dir != [] ==> dir[|dir| - 1] == SLASH)
    ensures LastComponent(dir + name) == name
    decreases |name|
  {
    if name == [] {
      assert dir + name == dir;
    } else {
      var n := |name| - 1;
      assert (dir + name)[..|dir + name| - 1] == dir + name[..n];
      assert (dir + name)[|dir + name| - 1] == name[n] && name[n] in name;
      LastComponentIs(dir, name[..n]);
      assert name == name[..n] + [name[n]];
    }
  }

  function Take(b: bytes, n: nat): (r: bytes)
    ensures r <= b && |r| <= n
  {
    if |b| <= n then b else b[..n]
  }

  /** What cmdline_reserve_prefix keeps of argv[0]: at most 18 bytes of its basename, and ": ". */
  function PrefixOf(argv0: bytes): (p: bytes)
    ensures 2 <= |p| <= MAX_PREFIX_LENGTH
  {
    Take(Basename(argv0), MAX_PREFIX_LENGTH - 2) + [58, 32]
  }

  /** The argument of cmdline_set_process_name: its format (None for NULL) and what vsnprintf makes of
      the effective format and the arguments (None if it fails). */
  datatype Call = Call(fmt: Option<bytes>, text: Option<CString>)

  /** The format handed to vsnprintf. */
  function EffectiveFormat(call: Call, moduleArg: bytes): bytes {
    match call.fmt
    case None => moduleArg
    case Some(fmt) => if fmt != [] && fmt[0] == DASH then fmt[1..] else fmt
  }

  /** vsnprintf copies a format without '%' as it is. */
  ghost predicate Formats(call: Call, moduleArg: CString) {
    PERCENT !in EffectiveFormat(call, moduleArg) ==>
      call.text.Some? && call.text.value == EffectiveFormat(call, moduleArg)
  }

  /** What goes in front of a title: nothing if the format starts with '-' or there is none. */
  function Lead(call: Call, prefix: bytes): bytes {
    if call.fmt.Some? && (call.fmt.value == [] || call.fmt.value[0] != DASH) then prefix else []
  }

  /** The title a call asks for. */
  function Title(call: Call, prefix: bytes): bytes
    requires call.text.Some?
  {
    Lead(call, prefix) + call.text.value
  }

  /** The three kinds of title: a format without '%' appears behind the prefix, without it when a dash is in
      front, and a NULL format shows the argument that was kept. */
  lemma Titles(prefix: bytes, moduleArg: CString, fmt: CString, call: Call)
    requires PERCENT !in fmt && PERCENT !in moduleArg && Formats(call, moduleArg)
    ensures call.fmt == Some([DASH] + fmt) ==> call.text.Some? && Title(call, prefix) == fmt
    ensures call.fmt == Some(fmt) && !([DASH] <= fmt) ==> call.text.Some? && Title(call, prefix) == prefix + fmt
    ensures call.fmt == None ==> call.text.Some? && Title(call, prefix) == moduleArg
  {
    assert ([DASH] + fmt)[1..] == fmt;
  }

  /** The prefix, for a program run by a path whose last component is name. */
  lemma PrefixIs(dir: bytes, name: bytes)
    requires name != [] && SLASH !in name && (dir != [] ==> dir[|dir| - 1] == SLASH)
    ensures PrefixOf(dir + name) == (if |name| <= 18 then name else name[..18]) + [58, 32]
  {
    BasenameIs(dir, name, []);
    assert dir + name + [] == dir + name;
  }

  /** The bytes name to name + max of memory a show exactly this title. */
  ghost predicate Shows(a: array<byte>, name: nat, max: nat, title: bytes)
    reads a
  {
    && name + max < a.Length && a[name + max] == 0
    && forall i | name <= i < name + max :: a[i] == if i - name < |title| then title[i - name] else 0
  }

  /** The bytes name to name + max of memory a begin with head, as far as it fits, and end with a NUL; what
      stands between may be anything, an older title's end included. */
  ghost predicate Begins(a: array<byte>, name: nat, max: nat, head: bytes)
    reads a
  {
    && name + max < a.Length && a[name + max] == 0
    && forall i | name <= i < name + max && i - name < |head| :: a[i] == head[i - name]
  }

  /** What ps(1) then reads there is the title, cut to max bytes; and whoever reads on, up to the region's end,
      finds nothing. */
  lemma ShownTitle(a: array<byte>, name: nat, max: nat, title: CString)
    requires Shows(a, name, max, title)
    ensures IsString(a[..], name) && StringAt(a[..], name) == Take(title, max)
    ensures name + max < a.Length && forall i | name + |title| <= i <= name + max :: a[i] == 0
  {
    var n := |Take(title, max)|;
    assert a[name + n] == 0;
    forall i | name <= i < name + n
      ensures a[i] != 0
    {
      assert title[i - name] in title;
    }
    assert EndOfString(a[..], name) == name + n;
  }

  /** Nothing but the max bytes from name on has changed. */
  twostate predicate OnlyRegion(a: array<byte>, name: nat, max: nat)
    reads a
  {
    forall i | 0 <= i < a.Length && (i < name || i >= name + max) :: a[i] == old(a[i])
  }

  /** memcpy of the prefix, as far as it fits. */
  method WritePrefix(a: array<byte>, name: nat, max: nat, prefix: bytes) returns (off: nat)
    requires name + max < a.Length && a[name + max] == 0
    modifies a
    ensures off == (if |prefix| <= max then |prefix| else max) && Begins(a, name, max, prefix)
    ensures OnlyRegion(a, name, max)
  {
    off := if |prefix| <= max then |prefix| else max;
    forall i | name <= i < name + off {
      a[i] := prefix[i - name];
    }
  }

  /** The title's text behind the off bytes of its prefix, and nothing behind it. */
  method WriteText(a: array<byte>, name: nat, max: nat, ghost head: bytes, off: nat, text: CString)
    requires name + max < a.Length && a[name + max] == 0
    requires off == (if |head| <= max then |head| else max)
    requires forall i | name <= i < name + off :: a[i] == head[i - name]
    modifies a
    ensures Shows(a, name, max, head + text) && OnlyRegion(a, name, max)
  {
    Format(a, name + off, max - off, text);
    var end := if max - off > |text| then off + |text| else max;
    Erase(a, name + end, max - end);
  }

  /** vsnprintf(dst, max + 1, ...) with the formatted text: as much as fits, and a NUL. */
  method Format(a: array<byte>, dst: nat, max: nat, text: CString)
    requires dst + max < a.Length
    modifies a
    ensures var end := dst + if |text| < max then |text| else max;
            && (forall i | dst <= i < end :: a[i] == text[i - dst])
            && a[end] == 0
            && forall i | 0 <= i < a.Length && (i < dst || i > end) :: a[i] == old(a[i])
  {
    var written := if |text| < max then |text| else max;
    forall i | dst <= i <= dst + written {
      a[i] := if i < dst + written then text[i - dst] else 0;
    }
  }

  /** vsnprintf(dst, max + 1, ...) that fails, with part of its output written or none. */
  method FailToFormat(a: array<byte>, dst: nat, max: nat)
    requires dst + max < a.Length
    modifies a
    ensures forall i | 0 <= i < a.Length && (i < dst || i >= dst + max) :: a[i] == old(a[i])
  {
    var junk: bytes := *;
    var written := if |junk| < max then |junk| else max;
    forall i | dst <= i < dst + written {
      a[i] := junk[i - dst];
    }
  }

  /** memset(dst, 0, n) */
  method Erase(a: array<byte>, dst: nat, n: nat)
    requires dst + n <= a.Length
    modifies a
    ensures forall i | dst <= i < dst + n :: a[i] == 0
    ensures forall i | 0 <= i < a.Length && (i < dst || i >= dst + n) :: a[i] == old(a[i])
  {
    forall i | dst <= i < dst + n {
      a[i] := 0;
    }
  }

  /** p points to a copy of s. */
  ghost predicate Holds(p: Ptr, s: bytes)
    reads p.block
  {
    && p.off + |s| < p.block.Length
    && p.block[p.off..p.off + |s|] == s && p.block[p.off + |s|] == 0
  }

  /** The string of m bytes at p and the one of n bytes at q do not share memory. */
  predicate Apart(p: Ptr, m: nat, q: Ptr, n: nat) {
    p.block != q.block || p.off + m < q.off || q.off + n < p.off
  }

  /** cmdline_malloc takes size bytes from the arena when they fit behind next, and otherwise leaves it. */
  predicate Fits(next: nat, size: nat) {
    next + size <= MAX_STATIC_BUFFER
  }

  function Bump(next: nat, size: nat): nat {
    if Fits(next, size) then next + size else next
  }

  /** Where the arena stands after copying the strings. */
  function BumpAll(next: nat, ss: seq<CString>): nat {
    if ss == [] then next else Bump(BumpAll(next, ss[..|ss| - 1]), |ss[|ss| - 1]| + 1)
  }

  /** Bytes of a pointer vector for n strings and its terminator. */
  function VectorBytes(n: nat): nat {
    ADDRESS_BYTES * (n + 1)
  }

  /** A cell stored at position at meets a character of the string of n bytes at position p. */
  predicate Hits(at: nat, p: nat, n: nat) {
    at < p + n && p < at + ADDRESS_BYTES && n > 0
  }

  /** Storing cell argc of a vector for the strings ss, which starts at position from of the arena and has
      their copies behind it, meets no character of a copy. */
  ghost predicate Misses(from: nat, ss: seq<CString>, argc: nat) {
    forall i | 0 <= i < |ss| :: MissesOne(from, ss, argc, i)
  }

  ghost predicate MissesOne(from: nat, ss: seq<CString>, argc: nat, i: nat)
    requires i < |ss|
  {
    var at := BumpAll(from + VectorBytes(|ss|), ss[..i]);
    Fits(at, |ss[i]| + 1) ==> !Hits(from + ADDRESS_BYTES * argc, at, |ss[i]|)
  }

  /** The copies of ss survive the store of the terminator in cell argc. */
  ghost predicate Spared(from: nat, ss: seq<CString>, argc: nat) {
    argc == |ss| || Misses(from, ss, argc)
  }

  /** That store falls outside the memory it was meant for: the vector lies on the heap, or the cell
      behind the arena. */
  predicate Strays(from: nat, n: nat, argc: nat) {
    argc > n && !(Fits(from, VectorBytes(n)) && Fits(from, VectorBytes(argc)))
  }

  /** In numbers: not all arguments were found, and a vector for all of them would not have fitted. */
  lemma StraysExactly(from: nat, n: nat, argc: nat)
    ensures Strays(from, n, argc) <==> argc > n && from + 8 * (argc + 1) > 65536
  {
  }

  /** When just one argument was not found, its store begins where the first copy does, and an argv[0] that
      is not empty is lost. */
  lemma LastMissed(from: nat, ss: seq<CString>)
    requires ss != [] && ss[0] != [] && Fits(from + VectorBytes(|ss|), |ss[0]| + 1)
    ensures !Spared(from, ss, |ss| + 1)
  {
    assert ss[..0] == [];
    assert !MissesOne(from, ss, |ss| + 1, 0);
  }

  /** Where argv's vector goes: behind the two copies of argv[0]. */
  function VectorAt(name: CString): nat {
    Bump(Bump(0, |name| + 1), |name| + 1)
  }

  class CmdLine {
    /** The memory argv and environ point into. */
    const stack: array<byte>
    /** cmdline_malloc's s_buffer; s_ptr stands at offset next, and left is s_size. */
    const arena: array<byte>
    /** No malloc(3) fails. */
    const works: bool
    var next: nat
    var left: nat
    /** Some malloc(3) has failed; some store has missed every object it could mean. */
    var heapFailed: bool
    var wild: bool
    var maxLength: nat
    var prefix: bytes
    var argName: Option<nat>
    var moduleArg: Option<CString>
    /** The global environ: the process's own pointers, then perhaps the copied vector. */
    var environ: seq<nat>
    var copiedEnviron: Option<seq<Slot>>

    /** The bump allocator's books balance, and the title region lies in memory and ends with a NUL. */
    ghost predicate Valid()
      reads this, stack
    {
      && arena != stack && arena.Length == MAX_STATIC_BUFFER
      && next + left == MAX_STATIC_BUFFER && (works ==> !heapFailed)
      && (argName.None? ==> next == 0 && !wild)
      && |prefix| <= MAX_PREFIX_LENGTH
      && (argName.None? ==> copiedEnviron.None?)
      && (argName.Some? ==>
            && argName.value + maxLength < stack.Length
            && stack[argName.value + maxLength] == 0)
      && (moduleArg.Some? ==> argName.Some? && |moduleArg.value| <= maxLength)
    }

    /** What the arena has not handed out is zero, as static storage begins. */
    ghost predicate Blank()
      reads this`next, arena
    {
      forall i | next <= i < arena.Length :: arena[i] == 0
    }

    constructor (stack: array<byte>, environ: seq<nat>, works: bool)
      ensures Valid() && Blank() && this.stack == stack && this.environ == environ && fresh(arena)
      ensures argName == None && this.works == works
    {
      this.stack, this.environ, this.works := stack, environ, works;
      arena := new byte[MAX_STATIC_BUFFER](_ => 0);
      next, left, heapFailed, wild, maxLength := 0, MAX_STATIC_BUFFER, false, false, 0;
      prefix, argName, moduleArg, copiedEnviron := [], None, None, None;
    }

    /** cmdline_malloc: the next bytes of the arena, or the heap once they do not suffice. */
    method Malloc(size: nat) returns (p: Option<Ptr>)
      requires Valid() && argName.Some?
      modifies this`next, this`left, this`heapFailed
      ensures Valid() && next == Bump(old(next), size)
      ensures Fits(old(next), size) ==> p == Some(Ptr(arena, old(next))) && heapFailed == old(heapFailed)
      ensures !Fits(old(next), size) ==>
                && (p.Some? ==>
                      && p.value.off == 0 && p.value.block.Length == size && fresh(p.value.block)
                      && heapFailed == old(heapFailed))
                && (p.None? ==> heapFailed)
    {
      if size > left {
        var fails: bool := *;
        if fails && !works {
          heapFailed := true;
          return None;
        }
        var block := new byte[size];
        return Some(Ptr(block, 0));
      }
      p := Some(Ptr(arena, next));
      next := next + size;
      left := left - size;
    }

    /** cmdline_strdup */
    method Strdup(s: CString) returns (p: Option<Ptr>)
      requires Valid() && argName.Some?
      modifies this`next, this`left, this`heapFailed, arena
      ensures Valid() && next == Bump(old(next), |s| + 1) && (old(heapFailed) ==> heapFailed)
      ensures forall i | 0 <= i < old(next) || next <= i < arena.Length :: arena[i] == old(arena[i])
      ensures p.None? ==> heapFailed
      ensures p.Some? ==> Holds(p.value, s)
      ensures if Fits(old(next), |s| + 1) then p == Some(Ptr(arena, old(next)))
              else p.Some? ==> fresh(p.value.block)
    {
      var len := |s|;
      p := Malloc(len + 1);
      if p.None? {
        return;
      }
      var block, off := p.value.block, p.value.off;
      forall i | 0 <= i < len + 1 {
        block[off + i] := if i < len then s[i] else 0;
      }
      assert block[off..off + len] == s;
    }

    /** strlen of a string in the stack's memory. */
    method Strlen(p: nat) returns (n: nat)
      requires IsString(stack[..], p)
      ensures p + n == EndOfString(stack[..], p)
    {
      n := 0;
      while stack[p + n] != 0
        invariant p + n <= EndOfString(stack[..], p) == EndOfString(stack[..], p + n)
        decreases stack.Length - (p + n)
      {
        n := n + 1;
      }
    }

    /** The slots hold copies of the strings, outside the stack and apart from each other, or NULL
        where the heap failed; those in the arena lie between from and to. */
    ghost predicate Copies(vec: seq<Slot>, ss: seq<CString>, from: nat, to: nat)
      requires |vec| <= |ss|
      reads this`heapFailed, set i | 0 <= i < |vec| && vec[i].To? :: vec[i].p.block
    {
      && (forall i | 0 <= i < |vec| :: vec[i].To? || (vec[i].Null? && heapFailed))
      && (forall i | 0 <= i < |vec| && vec[i].To? ::
            vec[i].p.block != stack && Holds(vec[i].p, ss[i])
            && (vec[i].p.block == arena ==> from <= vec[i].p.off && vec[i].p.off + |ss[i]| < to))
      && (forall i, j | 0 <= i < j < |vec| && vec[i].To? && vec[j].To? ::
            Apart(vec[i].p, |ss[i]|, vec[j].p, |ss[j]|))
    }

    /** The copies lie where the bump allocator puts them when it starts at from. */
    ghost predicate Placed(vec: seq<Slot>, ss: seq<CString>, from: nat)
      requires |vec| <= |ss|
    {
      forall i | 0 <= i < |vec| :: PlacedAt(vec[i], |ss[i]|, BumpAll(from, ss[..i]))
    }

    lemma OneMorePlaced(vec: seq<Slot>, slot: Slot, ss: seq<CString>, from: nat)
      requires |vec| < |ss| && Placed(vec, ss, from)
      requires PlacedAt(slot, |ss[|vec|]|, BumpAll(from, ss[..|vec|]))
      ensures Placed(vec + [slot], ss, from)
      ensures BumpAll(from, ss[..|vec| + 1]) == Bump(BumpAll(from, ss[..|vec|]), |ss[|vec|]| + 1)
    {
      assert ss[..|vec| + 1][..|vec|] == ss[..|vec|];
    }

    predicate PlacedAt(slot: Slot, n: nat, at: nat) {
      if Fits(at, n + 1) then slot == To(Ptr(arena, at)) else slot.To? ==> slot.p.block != arena
    }

    /** The copying loops of cmdline_setup. */
    method CopyStrings(ss: seq<CString>) returns (vec: seq<Slot>)
      requires Valid() && argName.Some?
      modifies this`next, this`left, this`heapFailed, arena
      ensures Valid() && old(next) <= next && (old(heapFailed) ==> heapFailed)
      ensures forall i | 0 <= i < old(next) :: arena[i] == old(arena[i])
      ensures |vec| == |ss| && Copies(vec, ss, old(next), next) && Placed(vec, ss, old(next))
      ensures forall i | 0 <= i < |vec| && vec[i].To? :: vec[i].p.block == arena || fresh(vec[i].p.block)
    {
      vec := [];
      assert ss[..0] == [];
      for j := 0 to |ss|
        invariant Valid() && old(next) <= next && (old(heapFailed) ==> heapFailed)
        invariant forall i | 0 <= i < old(next) :: arena[i] == old(arena[i])
        invariant |vec| == j && Copies(vec, ss, old(next), next)
        invariant Placed(vec, ss, old(next)) && next == BumpAll(old(next), ss[..j])
        invariant forall i | 0 <= i < |vec| && vec[i].To? ::
                    vec[i].p.block == arena || fresh(vec[i].p.block)
      {
        var slot := CopyOne(vec, ss, old(next));
        vec := vec + [slot];
      }
    }

    method CopyOne(vec: seq<Slot>, ss: seq<CString>, ghost from: nat) returns (slot: Slot)
      requires Valid() && argName.Some? && from <= next && |vec| < |ss| && Copies(vec, ss, from, next)
      requires Placed(vec, ss, from) && next == BumpAll(from, ss[..|vec|])
      modifies this`next, this`left, this`heapFailed, arena
      ensures Valid() && old(next) <= next && (old(heapFailed) ==> heapFailed)
      ensures forall i | 0 <= i < old(next) :: arena[i] == old(arena[i])
      ensures Copies(vec + [slot], ss, from, next) && Placed(vec + [slot], ss, from)
      ensures next == BumpAll(from, ss[..|vec| + 1])
      ensures slot.To? ==> slot.p.block == arena || fresh(slot.p.block)
    {
      slot := CopyNext(vec, ss, from);
      OneMorePlaced(vec, slot, ss, from);
    }

    /** One more copy; the ones made before are not disturbed. */
    method CopyNext(vec: seq<Slot>, ss: seq<CString>, ghost from: nat) returns (slot: Slot)
      requires Valid() && argName.Some? && from <= next && |vec| < |ss| && Copies(vec, ss, from, next)
      modifies this`next, this`left, this`heapFailed, arena
      ensures Valid() && next == Bump(old(next), |ss[|vec|]| + 1) && (old(heapFailed) ==> heapFailed)
      ensures PlacedAt(slot, |ss[|vec|]|, old(next))
      ensures forall i | 0 <= i < old(next) :: arena[i] == old(arena[i])
      ensures Copies(vec + [slot], ss, from, next)
      ensures slot.To? ==> slot.p.block == arena || fresh(slot.p.block)
    {
      ghost var was := arena[..];
      assert forall i | 0 <= i < |vec| && vec[i].To? :: Holds(vec[i].p, ss[i]);
      var p := Strdup(ss[|vec|]);
      forall i | 0 <= i < |vec| && vec[i].To?
        ensures Holds(vec[i].p, ss[i])
      {
        var off, end := vec[i].p.off, vec[i].p.off + |ss[i]|;
        assert vec[i].p.block == arena ==> arena[off..end] == was[off..end];
      }
      slot := match p case None => Null case Some(q) => To(q);
      OneMoreCopy(vec, slot, ss, from, old(next));
    }

    lemma OneMoreCopy(vec: seq<Slot>, slot: Slot, ss: seq<CString>, from: nat, before: nat)
      requires |vec| < |ss| && Copies(vec, ss, from, before) && from <= before <= next
      requires slot.To? || (slot.Null? && heapFailed)
      requires slot.To? ==>
                 && slot.p.block != stack && Holds(slot.p, ss[|vec|])
                 && (slot.p.block == arena ==> before <= slot.p.off && slot.p.off + |ss[|vec|]| < next)
                 && (slot.p.block != arena ==>
                       forall i | 0 <= i < |vec| && vec[i].To? :: vec[i].p.block != slot.p.block)
      ensures Copies(vec + [slot], ss, from, next)
    {
    }

    /** Both contiguity loops of cmdline_setup: how many of ps, from the k-th on, lie one behind the
        other, beginning behind the string at pointer. */
    method CountContiguous(pointer: nat, ps: seq<Option<nat>>, k: nat) returns (n: nat)
      requires k <= |ps| && IsString(stack[..], pointer)
      requires forall i | 0 <= i < |ps| && ps[i].Some? :: IsString(stack[..], ps[i].value)
      ensures n == Continues(stack[..], EndOfString(stack[..], pointer), ps, k)
    {
      n := k;
      var last := pointer;
      while n < |ps| && ps[n].Some?
        invariant k <= n <= |ps| && IsString(stack[..], last)
        invariant Continues(stack[..], EndOfString(stack[..], pointer), ps, k)
               == Continues(stack[..], EndOfString(stack[..], last), ps, n)
      {
        var length := Strlen(last);
        if ps[n].value != last + length + 1 {
          break;
        }
        last := ps[n].value;
        n := n + 1;
      }
    }

    /** cmdline_reserve_prefix */
    method ReservePrefix(argv0: CString)
      requires Valid() && Blank() && argName.Some?
      modifies this`next, this`left, this`heapFailed, this`prefix, arena
      ensures Valid() && Blank() && next == Bump(old(next), |argv0| + 1) && (old(heapFailed) ==> heapFailed)
      ensures prefix == PrefixOf(argv0) || heapFailed
    {
      var copy := Strdup(argv0);
      var base := match copy case None => [46] case Some(_) => Basename(argv0);
      prefix := Take(base, MAX_PREFIX_LENGTH - 2) + [58, 32];
    }

    /** A pointer vector with the copies: cmdline_setup makes one of argv and one of environ. base is its
        memory, of which the cell behind the last copy still is as it was. */
    method CopyVector(ss: seq<CString>) returns (v: Option<seq<Slot>>, base: Option<Ptr>)
      requires Valid() && argName.Some?
      modifies this`next, this`left, this`heapFailed, arena
      ensures Valid() && old(next) <= next && (old(heapFailed) ==> heapFailed)
      ensures forall i | 0 <= i < old(next) :: arena[i] == old(arena[i])
      ensures v.Some? <==> base.Some?
      ensures v.None? ==> heapFailed
      ensures v.Some? ==>
                && |v.value| == |ss| && Copies(v.value, ss, old(next), next)
                && forall i | 0 <= i < |ss| && v.value[i].To? ::
                     v.value[i].p.block == arena || fresh(v.value[i].p.block)
      ensures v.Some? ==> Placed(v.value, ss, Bump(old(next), VectorBytes(|ss|)))
      ensures if Fits(old(next), VectorBytes(|ss|)) then
                && base == Some(Ptr(arena, old(next)))
                && forall i | old(next) <= i < old(next) + VectorBytes(|ss|) :: arena[i] == old(arena[i])
              else base.Some? ==> base.value.block != arena
    {
      base := Malloc(VectorBytes(|ss|));
      if base.None? {
        return None, base;
      }
      var slots := CopyStrings(ss);
      v := Some(slots);
    }

    /** argv's copies and then argv_duplication[argc] = NULL, for the strings found among argc arguments. */
    method CopyArgv(ss: seq<CString>, argc: nat) returns (slots: Option<seq<Slot>>)
      requires Valid() && Blank() && argName.Some? && |ss| <= argc && !wild
      modifies this`next, this`left, this`heapFailed, this`wild, arena
      ensures Valid() && (old(heapFailed) ==> heapFailed)
      ensures if slots.None? then heapFailed else ArgvCopied(slots.value, ss, argc, old(next))
    {
      ghost var from := next;
      var n := |ss|;
      var vs, base := CopyVector(ss);
      if vs.None? {
        return None;
      }
      // Cell n is zero even if it is not stored, unless it is malloc(3)'s, whose contents are not known.
      var cell := base.value.off + ADDRESS_BYTES * n;
      assert base.value.block == arena ==> forall i | cell <= i < cell + ADDRESS_BYTES :: arena[i] == 0;
      if argc > n {
        StoreNull(base.value, argc, vs.value, ss, from);
      }
      var last := if argc == n || base.value.block == arena then Null else Unset;
      slots := Some(vs.value + [last]);
      assert slots.value[..n] == vs.value;
    }

    /** Each copy that was made reads as its original. */
    ghost predicate Intact(vs: seq<Slot>, ss: seq<CString>)
      requires |vs| == |ss|
      reads set i | 0 <= i < |vs| && vs[i].To? :: vs[i].p.block
    {
      forall i | 0 <= i < |vs| && vs[i].To? :: Holds(vs[i].p, ss[i])
    }

    /** What cmdline_setup makes of the strings ss found among argc arguments, its vector starting at from. */
    ghost predicate ArgvCopied(slots: seq<Slot>, ss: seq<CString>, argc: nat, from: nat)
      reads this`heapFailed, this`next, this`wild, set i | 0 <= i < |slots| && slots[i].To? :: slots[i].p.block
    {
      var n := |ss|;
      && |slots| == n + 1
      && (forall i | 0 <= i < n :: slots[i].To? || (slots[i].Null? && heapFailed))
      && (slots[n] == Null <==> argc == n || Fits(from, VectorBytes(n)))
      && (wild <==> Strays(from, n, argc))
      && (argc == n ==> Copies(slots[..n], ss, 0, next))
      && (!wild ==> (Intact(slots[..n], ss) <==> Spared(from, ss, argc)))
    }

    /** The store into cell argc of a vector that is shorter: it zeroes what lies there. */
    method StoreNull(base: Ptr, argc: nat, ghost vs: seq<Slot>, ghost ss: seq<CString>, ghost from: nat)
      requires Valid() && argName.Some? && !wild && argc > |ss| == |vs| && Copies(vs, ss, from, next)
      requires Placed(vs, ss, Bump(from, VectorBytes(|ss|)))
      requires if Fits(from, VectorBytes(|ss|)) then base == Ptr(arena, from) else base.block != arena
      modifies this`wild, arena
      ensures Valid() && (wild <==> Strays(from, |ss|, argc))
      ensures !wild ==> (Intact(vs, ss) <==> Spared(from, ss, argc))
    {
      var at := base.off + ADDRESS_BYTES * argc;
      if base.block != arena || !Fits(at, ADDRESS_BYTES) {
        wild := true;
        return;
      }
      ghost var was := arena[..];
      assert forall i | 0 <= i < |vs| && vs[i].To? :: Holds(vs[i].p, ss[i]);
      ZeroCell(at);
      forall i | 0 <= i < |vs|
        ensures MissesOne(from, ss, argc, i) <==> (vs[i].To? ==> Holds(vs[i].p, ss[i]))
      {
        OneSpared(was, vs, ss, from, argc, i);
      }
    }

    /** The store into cell argc takes the i-th copy if and only if it meets one of its characters. */
    lemma OneSpared(was: bytes, vs: seq<Slot>, ss: seq<CString>, from: nat, argc: nat, i: nat)
      requires i < |vs| == |ss| && Placed(vs, ss, from + VectorBytes(|ss|))
      requires var at := from + ADDRESS_BYTES * argc;
               && Fits(at, ADDRESS_BYTES) && |was| == arena.Length == MAX_STATIC_BUFFER
               && forall k | 0 <= k < |was| :: arena[k] == if at <= k < at + ADDRESS_BYTES then 0 else was[k]
      requires vs[i].To? && vs[i].p.block != arena ==> Holds(vs[i].p, ss[i])
      requires vs[i].To? && vs[i].p.block == arena ==>
                 var p, n := vs[i].p.off, |ss[i]|;
                 p + n < |was| && was[p..p + n] == ss[i] && was[p + n] == 0
      ensures MissesOne(from, ss, argc, i) <==> (vs[i].To? ==> Holds(vs[i].p, ss[i]))
    {
      assert PlacedAt(vs[i], |ss[i]|, BumpAll(from + VectorBytes(|ss|), ss[..i]));
      if vs[i].To? && vs[i].p.block == arena {
        Zeroed(was, arena[..], from + ADDRESS_BYTES * argc, vs[i].p.off, ss[i]);
      }
    }

    method ZeroCell(at: nat)
      requires Valid() && Fits(at, ADDRESS_BYTES)
      modifies arena
      ensures Valid()
      ensures forall i | 0 <= i < arena.Length ::
                arena[i] == if at <= i < at + ADDRESS_BYTES then 0 else old(arena[i])
    {
      forall i | at <= i < at + ADDRESS_BYTES {
        arena[i] := 0;
      }
    }

    /** Zeroing a cell leaves a string in place exactly when it does not hit it. */
    static lemma Zeroed(was: bytes, now: bytes, at: nat, p: nat, s: CString)
      requires |was| == |now| && at + ADDRESS_BYTES <= |was| && p + |s| < |was|
      requires forall i | 0 <= i < |now| :: now[i] == if at <= i < at + ADDRESS_BYTES then 0 else was[i]
      requires was[p..p + |s|] == s && was[p + |s|] == 0
      ensures now[p + |s|] == 0 && (now[p..p + |s|] == s <==> !Hits(at, p, |s|))
    {
      if Hits(at, p, |s|) {
        var k := if at < p then p else at;
        assert now[p..p + |s|][k - p] == 0 && s[k - p] in s;
      } else {
        assert now[p..p + |s|] == was[p..p + |s|];
      }
    }

    /** A second vector of copies; the first is not disturbed, and the two are apart. */
    method CopyMore(vs: seq<Slot>, ghost ss: seq<CString>, tt: seq<CString>) returns (w: Option<seq<Slot>>)
      requires Valid() && argName.Some? && |vs| == |ss| && Copies(vs, ss, 0, next)
      modifies this`next, this`left, this`heapFailed, arena
      ensures Valid() && (old(heapFailed) ==> heapFailed)
      ensures Copies(vs, ss, 0, next)
      ensures w.None? ==> heapFailed
      ensures w.Some? ==> |w.value| == |tt| && Copies(w.value, tt, 0, next) && VectorsApart(vs, ss, w.value, tt)
    {
      ghost var was := arena[..];
      assert forall i | 0 <= i < |vs| && vs[i].To? :: Holds(vs[i].p, ss[i]);
      var base;
      w, base := CopyVector(tt);
      forall i | 0 <= i < |vs| && vs[i].To?
        ensures Holds(vs[i].p, ss[i])
      {
        var off, end := vs[i].p.off, vs[i].p.off + |ss[i]|;
        assert vs[i].p.block == arena ==> arena[off..end] == was[off..end];
      }
    }

    /** The argv strings cmdline_setup finds one behind the other. */
    ghost function ArgvFound(argv: seq<Option<nat>>): (found: seq<nat>)
      requires ArgvOk(argv) && argv != [] && argv[0].Some?
      reads stack
      ensures 1 <= |found| <= |argv| && found[0] == argv[0].value && Chain(stack[..], found)
      ensures forall i | 0 <= i < |found| :: argv[i] == Some(found[i])
    {
      FoundIsChain(stack[..], [argv[0].value], argv, 1);
      [argv[0].value] + Addresses(argv[1..Continues(stack[..], EndOfString(stack[..], argv[0].value), argv, 1)])
    }

    ghost predicate ArgvOk(argv: seq<Option<nat>>)
      reads stack
    {
      forall i | 0 <= i < |argv| && argv[i].Some? :: IsString(stack[..], argv[i].value)
    }

    /** The environ strings that continue them: none unless all of argv was found. */
    ghost function EnvironFound(argv: seq<Option<nat>>): (vars: seq<nat>)
      requires ArgvOk(argv) && argv != [] && argv[0].Some? && ArgvOk(Present(environ))
      reads this`environ, stack
      ensures vars <= environ && Chain(stack[..], ArgvFound(argv) + vars)
    {
      var found := ArgvFound(argv);
      if |found| < |argv| then
        assert found + [] == found;
        []
      else
        var end := EndOfString(stack[..], found[|found| - 1]);
        FoundIsChain(stack[..], found, Present(environ), 0);
        assert Addresses(Present(environ)[0..Continues(stack[..], end, Present(environ), 0)])
            == environ[..Continues(stack[..], end, Present(environ), 0)];
        environ[..Continues(stack[..], end, Present(environ), 0)]
    }

    /** The region is exactly the strings at ps with their NULs. */
    ghost predicate RegionIs(ps: seq<nat>)
      requires argName.Some? && argName.value + maxLength < stack.Length
      reads this`argName, this`maxLength, stack
    {
      && Chain(stack[..], ps)
      && stack[argName.value..argName.value + maxLength + 1] == Joined(stack[..], ps)
    }

    /** Two vectors of copies that share no memory. */
    ghost predicate VectorsApart(v: seq<Slot>, ss: seq<CString>, w: seq<Slot>, tt: seq<CString>)
      requires |v| <= |ss| && |w| <= |tt|
    {
      forall i, j | 0 <= i < |v| && 0 <= j < |w| && v[i].To? && w[j].To? ::
        Apart(v[i].p, |ss[i]|, w[j].p, |tt[j]|)
    }

    /** What a successful cmdline_setup leaves: argv's copies as ArgvCopied says; unless the heap failed,
        copies of the environ strings found, closed by NULL; and a region that is what was scanned. */
    ghost predicate SetUp(argv: seq<Option<nat>>, slots: seq<Slot>)
      requires Valid() && ArgvOk(argv) && ArgvOk(Present(environ))
      requires argv != [] && argv[0].Some? && argName == argv[0]
      reads *
    {
      var found, vars := ArgvFound(argv), EnvironFound(argv);
      var ss, tt := Texts(stack[..], found), Texts(stack[..], vars);
      && CopiesMade(slots, ss, tt, |argv|, VectorAt(ss[0]))
      && (vars == [] || copiedEnviron.Some? ==> RegionIs(found + vars))
    }

    /** environ's copies, closed by NULL and apart from argv's. */
    ghost predicate EnvironCopied(vs: seq<Slot>, ss: seq<CString>, tt: seq<CString>)
      requires |vs| == |ss|
      reads this`copiedEnviron, this`heapFailed, this`next
      reads set i | copiedEnviron.Some? && 0 <= i < |copiedEnviron.value| && copiedEnviron.value[i].To?
              :: copiedEnviron.value[i].p.block
    {
      && copiedEnviron.Some?
      && var w, m := copiedEnviron.value, |tt|;
         && |w| == m + 1 && w[m] == Null
         && Copies(w[..m], tt, 0, next) && VectorsApart(vs, ss, w[..m], tt)
    }

    /** All of argv is found, and so copied faithfully and closed by NULL, exactly when it is contiguous. */
    lemma AllFound(argv: seq<Option<nat>>)
      requires ArgvOk(argv) && argv != [] && argv[0].Some?
      ensures |ArgvFound(argv)| == |argv| <==> Contiguous(stack[..], argv)
    {
      CountsAll(stack[..], argv, 1);
    }

    /** Of environ, all is found when it lies in one piece with argv and behind it, and nothing when argv
        does not or its first string does not. */
    lemma EnvironParts(argv: seq<Option<nat>>)
      requires ArgvOk(argv) && argv != [] && argv[0].Some? && ArgvOk(Present(environ))
      ensures |ArgvFound(argv)| == |argv| && EnvironFound(argv) == environ
         <==> Contiguous(stack[..], argv + Present(environ))
      ensures EnvironFound(argv) == []
         <==> environ == [] || !Contiguous(stack[..], argv + Present(environ[..1]))
    {
      AllFound(argv);
      FrontInOnePiece(stack[..], argv, Present(environ));
      FrontInOnePiece(stack[..], argv, Present(if environ == [] then [] else environ[..1]));
      if Contiguous(stack[..], argv) {
        BothInOnePiece(stack[..], argv, Present(environ));
        FirstInOnePiece(stack[..], argv, environ);
      }
    }

    /** The strings the program finds in its environ, up to the NULL. */
    ghost predicate Sees(vars: seq<CString>)
      requires ArgvOk(Present(environ))
      reads this`environ, this`copiedEnviron, stack
      reads set i | copiedEnviron.Some? && 0 <= i < |copiedEnviron.value| && copiedEnviron.value[i].To?
              :: copiedEnviron.value[i].p.block
    {
      assert forall i | 0 <= i < |environ| :: Present(environ)[i] == Some(environ[i]);
      match copiedEnviron
      case None => vars == Texts(stack[..], environ)
      case Some(w) =>
        && |vars| < |w| && w[|vars|] == Null
        && forall i | 0 <= i < |vars| :: w[i].To? && Holds(w[i].p, vars[i])
    }

    /** What the program finds after a setup: the environ strings that were found, or all when none was. */
    ghost function EnvironLeft(argv: seq<Option<nat>>): (vars: seq<CString>)
      requires ArgvOk(argv) && argv != [] && argv[0].Some? && ArgvOk(Present(environ))
      reads this`environ, stack
    {
      assert forall i | 0 <= i < |environ| :: Present(environ)[i] == Some(environ[i]);
      Texts(stack[..], if EnvironFound(argv) == [] then environ else EnvironFound(argv))
    }

    /** Variables are lost exactly when environ begins behind argv and does not stay in one piece: those
        behind the first gap. */
    lemma EnvironSurvives(argv: seq<Option<nat>>, slots: seq<Slot>)
      requires Valid() && ArgvOk(argv) && ArgvOk(Present(environ)) && argv != [] && argv[0].Some?
      requires argName == argv[0] && SetUp(argv, slots) && !heapFailed
      ensures Sees(EnvironLeft(argv))
      ensures Sees(Texts(stack[..], environ))
         <==> || environ == [] || !Contiguous(stack[..], argv + Present(environ[..1]))
              || Contiguous(stack[..], argv + Present(environ))
    {
      EnvironParts(argv);
      FrontInOnePiece(stack[..], argv, Present(environ));
      AllFound(argv);
      SeenAfter(argv, slots);
    }

    lemma SeenAfter(argv: seq<Option<nat>>, slots: seq<Slot>)
      requires Valid() && ArgvOk(argv) && ArgvOk(Present(environ)) && argv != [] && argv[0].Some?
      requires argName == argv[0] && SetUp(argv, slots) && !heapFailed
      ensures Sees(EnvironLeft(argv))
      ensures Sees(Texts(stack[..], environ)) <==> EnvironFound(argv) == [] || EnvironFound(argv) == environ
    {
      var found, vars := ArgvFound(argv), EnvironFound(argv);
      if vars != [] {
        var ss := Texts(stack[..], found);
        SeenCopies(slots[..|ss|], ss, Texts(stack[..], vars));
      }
    }

    /** The copied vector holds its strings, and no other number of them. */
    lemma SeenCopies(vs: seq<Slot>, ss: seq<CString>, tt: seq<CString>)
      requires |vs| == |ss| && EnvironCopied(vs, ss, tt) && !heapFailed && ArgvOk(Present(environ))
      ensures Sees(tt) && forall us: seq<CString> | Sees(us) :: |us| == |tt|
    {
      var w, m := copiedEnviron.value, |tt|;
      assert forall i | 0 <= i < m :: w[i] == w[..m][i];
    }

    /** The failing input: an argument "a", behind it the variable "X", and "Y" behind a gap of one byte. */
    lemma VariableLost(slots: seq<Slot>)
      requires Valid() && stack[..] == [97, 0, 88, 0, 1, 89, 0] && environ == [2, 5]
      requires argName == Some(0) && ArgvOk([Some(0)]) && ArgvOk(Present(environ))
      requires SetUp([Some(0)], slots) && !heapFailed
      ensures Sees([[88]]) && !Sees([[88], [89]])
    {
      var argv, memory := [Some(0)], stack[..];
      LostInMemory(memory);
      assert Present(environ) == [Some(2), Some(5)] && Present(environ[..1]) == [Some(2)];
      EnvironSurvives(argv, slots);
      EnvironParts(argv);
      assert Texts(memory, environ) == [[88], [89]];
      assert |EnvironFound(argv)| == 1 && EnvironLeft(argv) == [[88]];
    }

    static lemma LostInMemory(memory: bytes)
      requires memory == [97, 0, 88, 0, 1, 89, 0]
      ensures StringAt(memory, 2) == [88] && StringAt(memory, 5) == [89]
      ensures Contiguous(memory, [Some(0)] + [Some(2)])
      ensures !Contiguous(memory, [Some(0)] + [Some(2), Some(5)])
    {
      assert EndOfString(memory, 0) == 1 && EndOfString(memory, 2) == 3 && EndOfString(memory, 5) == 6;
      assert memory[2..3] == [88] && memory[5..6] == [89];
      assert !NextTo(memory, [Some(0)] + [Some(2), Some(5)], 2);
    }

    /** The failing input: two arguments "a" and "b" with a byte between them. The new argv[0] is not "a". */
    lemma TwoApart(slots: seq<Slot>)
      requires Valid() && stack[..] == [97, 0, 1, 98, 0] && ArgvOk(Present(environ)) && argName == Some(0)
      requires ArgvOk([Some(0), Some(3)]) && !wild && SetUp([Some(0), Some(3)], slots)
      ensures slots[0].To? && !Holds(slots[0].p, [97]) && !Strays(VectorAt([97]), 1, 2)
    {
      var argv, memory := [Some(0), Some(3)], stack[..];
      assert EndOfString(memory, 0) == 1;
      assert !NextTo(memory, argv, 1);
      AllFound(argv);
      var found := ArgvFound(argv);
      var ss := Texts(memory, found);
      assert found == [0] && StringAt(memory, 0) == memory[0..1] == [97];
      assert ss == [[97]];
      LastMissed(VectorAt([97]), ss);
    }

    /** What a setup that returns slots leaves, and whether its store strayed. */
    ghost predicate Result(argv: seq<Option<nat>>, slots: seq<Slot>)
      requires Valid() && ArgvOk(argv) && ArgvOk(Present(environ))
      reads *
    {
      && argv != [] && argv[0].Some? && argName == argv[0]
      && (!wild ==> SetUp(argv, slots))
      && var ss := Texts(stack[..], ArgvFound(argv));
         wild <==> Strays(VectorAt(ss[0]), |ss|, |argv|)
    }

    /** cmdline_setup. The new argv has one slot more than strings were found. Its terminator is stored in
        cell argc: that is the last one if all of argv was found; otherwise the store hits what lies there,
        and the copies read as their originals exactly when they are spared - or, if it strays, nothing is
        said. The region is what was scanned, argv and then environ, and both copies lie outside it. */
    method Setup(argv: seq<Option<nat>>) returns (r: Option<seq<Slot>>)
      requires Valid() && Blank() && ArgvOk(argv) && ArgvOk(Present(environ))
      modifies this, arena
      ensures Valid() && environ == old(environ)
      ensures argv == [] || argv[0].None? || old(argName).Some? ==>
                r == None && argName == old(argName) && maxLength == old(maxLength)
      ensures argv != [] && argv[0].Some? && old(argName).None? ==>
                && argName == argv[0]
                && (heapFailed || (&& r.Some?
                                   && moduleArg == Some(StringAt(stack[..], argv[0].value))
                                   && prefix == PrefixOf(StringAt(stack[..], argv[0].value))))
      ensures r.Some? ==> Result(argv, r.value)
    {
      if argv == [] || argv[0].None? || argName.Some? {
        return None;
      }
      KeepName(argv[0].value);
      r := CopyOut(argv);
    }

    /** cmdline_setup up to the scans: the name, its copy, and the prefix. */
    method KeepName(first: nat)
      requires Valid() && Blank() && argName.None? && IsString(stack[..], first)
      modifies this`next, this`left, this`heapFailed, this`prefix, this`argName, this`moduleArg, this`maxLength, arena
      ensures Valid() && Blank() && argName == Some(first) && first + maxLength == EndOfString(stack[..], first)
      ensures var name := StringAt(stack[..], first);
              && next == VectorAt(name)
              && (heapFailed || (moduleArg == Some(name) && prefix == PrefixOf(name)))
    {
      var name := StringAt(stack[..], first);
      argName := Some(first);
      maxLength := Strlen(first);
      var copy := Strdup(name);
      moduleArg := match copy case None => None case Some(_) => Some(name);
      ReservePrefix(name);
    }

    /** The two contiguity loops, over argv and then over environ. */
    method Scan(argv: seq<Option<nat>>) returns (found: seq<nat>, vars: seq<nat>)
      requires ArgvOk(argv) && ArgvOk(Present(environ)) && argv != [] && argv[0].Some?
      ensures found == ArgvFound(argv) && vars == EnvironFound(argv)
    {
      var n := CountContiguous(argv[0].value, argv, 1);
      found, vars := Addresses(argv[..n]), [];
      assert found == ArgvFound(argv);
      if n == |argv| {
        var m := CountContiguous(found[n - 1], Present(environ), 0);
        vars := environ[..m];
      }
    }

    /** cmdline_setup from the scans on. */
    method CopyOut(argv: seq<Option<nat>>) returns (r: Option<seq<Slot>>)
      requires Valid() && Blank() && ArgvOk(argv) && ArgvOk(Present(environ)) && !wild
      requires argv != [] && argv[0].Some? && argName == argv[0]
      requires argName.value + maxLength == EndOfString(stack[..], argName.value)
      requires copiedEnviron.None? && next == VectorAt(StringAt(stack[..], argName.value))
      modifies this`next, this`left, this`heapFailed, this`wild, this`maxLength, this`copiedEnviron, arena
      ensures Valid() && (old(heapFailed) ==> heapFailed)
      ensures r.None? ==> heapFailed
      ensures r.Some? ==> Result(argv, r.value)
    {
      var found, vars := Scan(argv);
      r := CopyFound(found, vars, |argv|);
      assert found == ArgvFound(argv) && vars == EnvironFound(argv);
    }

    /** Both copies and the region, for what was scanned. */
    method CopyFound(found: seq<nat>, vars: seq<nat>, argc: nat) returns (slots: Option<seq<Slot>>)
      requires Valid() && Blank() && argName.Some? && copiedEnviron.None?
      requires AreStrings(found) && AreStrings(vars)
      requires found != [] && found[0] == argName.value && Chain(stack[..], found + vars)
      requires argName.value + maxLength == EndOfString(stack[..], found[0])
      requires |found| <= argc && !wild && (vars != [] ==> |found| == argc)
      modifies this`next, this`left, this`heapFailed, this`wild, this`maxLength, this`copiedEnviron, arena
      ensures Valid() && (old(heapFailed) ==> heapFailed)
      ensures slots.None? ==> heapFailed
      ensures slots.Some? ==>
                CopiesMade(slots.value, Texts(stack[..], found), Texts(stack[..], vars), argc, old(next))
      ensures slots.Some? && (vars == [] || copiedEnviron.Some?) ==> RegionIs(found + vars)
    {
      ghost var from := next;
      assert IsString(stack[..], found[0]);
      var ss, tt := Texts(stack[..], found), Texts(stack[..], vars);
      slots := CopyBoth(ss, tt, argc);
      if slots.Some? && (vars == [] || copiedEnviron.Some?) {
        Occupied(slots.value, ss, tt, argc, from, found + vars);
      }
    }

    /** g_max_length, with the copies left alone. */
    method Occupied(ghost slots: seq<Slot>, ghost ss: seq<CString>, ghost tt: seq<CString>, ghost argc: nat,
                    ghost from: nat, ps: seq<nat>)
      requires Valid() && CopiesMade(slots, ss, tt, argc, from)
      requires argName.Some? && ps != [] && ps[0] == argName.value && Chain(stack[..], ps)
      requires argName.value + maxLength <= EndOfString(stack[..], argName.value)
      modifies this`maxLength
      ensures Valid() && RegionIs(ps) && CopiesMade(slots, ss, tt, argc, from)
    {
      Occupy(ps);
    }

    /** Both copies. */
    method CopyBoth(ss: seq<CString>, tt: seq<CString>, argc: nat) returns (slots: Option<seq<Slot>>)
      requires Valid() && Blank() && argName.Some? && copiedEnviron.None?
      requires |ss| <= argc && !wild && (tt != [] ==> |ss| == argc)
      modifies this`next, this`left, this`heapFailed, this`wild, this`copiedEnviron, arena
      ensures Valid() && (old(heapFailed) ==> heapFailed)
      ensures slots.None? ==> heapFailed
      ensures slots.Some? ==> CopiesMade(slots.value, ss, tt, argc, old(next))
    {
      slots := CopyArgv(ss, argc);
      if slots.Some? && tt != [] {
        CopyEnviron(slots.value[..|ss|], ss, tt);
      }
    }

    /** Copies of argv's strings ss, found among argc arguments, and unless there are none or the heap
        failed, of environ's, tt. */
    ghost predicate CopiesMade(slots: seq<Slot>, ss: seq<CString>, tt: seq<CString>, argc: nat, from: nat)
      reads this`copiedEnviron, this`heapFailed, this`wild, this`next
      reads set i | 0 <= i < |slots| && slots[i].To? :: slots[i].p.block
      reads set i | copiedEnviron.Some? && 0 <= i < |copiedEnviron.value| && copiedEnviron.value[i].To?
              :: copiedEnviron.value[i].p.block
    {
      && ArgvCopied(slots, ss, argc, from)
      && (if tt == [] then copiedEnviron.None?
          else if copiedEnviron.None? then heapFailed
          else EnvironCopied(slots[..|ss|], ss, tt))
    }

    ghost predicate AreStrings(ps: seq<nat>)
      reads stack
    {
      forall i | 0 <= i < |ps| :: IsString(stack[..], ps[i])
    }

    /** environ's copies. */
    method CopyEnviron(vs: seq<Slot>, ghost ss: seq<CString>, tt: seq<CString>)
      requires Valid() && argName.Some? && copiedEnviron.None? && |vs| == |ss| && Copies(vs, ss, 0, next)
      modifies this`next, this`left, this`heapFailed, this`copiedEnviron, arena
      ensures Valid() && (old(heapFailed) ==> heapFailed)
      ensures Copies(vs, ss, 0, next)
      ensures if copiedEnviron.None? then heapFailed else EnvironCopied(vs, ss, tt)
    {
      var w := CopyMore(vs, ss, tt);
      if w.Some? {
        StoreEnviron(vs, ss, w.value, tt);
      }
    }

    /** environ = environ_duplication, with its NULL. */
    method StoreEnviron(vs: seq<Slot>, ghost ss: seq<CString>, w: seq<Slot>, ghost tt: seq<CString>)
      requires Valid() && argName.Some?
      requires |vs| == |ss| && |w| == |tt| && Copies(w, tt, 0, next) && VectorsApart(vs, ss, w, tt)
      modifies this`copiedEnviron
      ensures Valid() && copiedEnviron.Some? && EnvironCopied(vs, ss, tt)
    {
      var slots := w + [Null];
      assert slots[..|tt|] == w;
      copiedEnviron := Some(slots);
    }

    /** g_max_length reaches to the NUL of the last string found. */
    method Occupy(ps: seq<nat>)
      requires Valid() && argName.Some? && ps != [] && ps[0] == argName.value && Chain(stack[..], ps)
      requires argName.value + maxLength <= EndOfString(stack[..], argName.value)
      modifies this`maxLength
      ensures Valid() && RegionIs(ps)
    {
      ChainFills(stack[..], ps);
      var last := ps[|ps| - 1];
      assert IsString(stack[..], last);
      var length := Strlen(last);
      maxLength := last - argName.value + length;
      assert stack[..][argName.value..argName.value + maxLength + 1]
          == stack[argName.value..argName.value + maxLength + 1];
    }

    /** cmdline_set_process_name: overwrites the region in place. */
    method SetProcessName(call: Call) returns (ret: int)
      requires Valid()
      requires call.fmt.None? && argName.Some? && maxLength > 0 ==> moduleArg.Some?
      modifies stack
      ensures Valid()
      ensures ret == if maxLength == 0 || argName.None? || call.text.None? then -1 else 0
      ensures ret == 0 ==> Shows(stack, argName.value, maxLength, Title(call, prefix))
      ensures argName.Some? && maxLength > 0 ==> Begins(stack, argName.value, maxLength, Lead(call, prefix))
      ensures if argName.None? || maxLength == 0 then stack[..] == old(stack[..])
              else OnlyRegion(stack, argName.value, maxLength)
    {
      if maxLength == 0 || argName.None? {
        return -1;
      }
      var name, withPrefix := argName.value, false;
      if call.fmt.None? {
        withPrefix := false;
      } else if call.fmt.value != [] && call.fmt.value[0] == DASH {
        withPrefix := false;
      } else {
        withPrefix := |prefix| != 0;
      }
      var off := 0;
      if withPrefix {
        off := WritePrefix(stack, name, maxLength, prefix);
      }
      ret := Print(call, off);
    }

    /** vsnprintf behind the off bytes of the prefix, and the erasing of what follows. */
    method Print(call: Call, off: nat) returns (ret: int)
      requires Valid() && argName.Some? && Begins(stack, argName.value, maxLength, Lead(call, prefix))
      requires var head := Lead(call, prefix);
               off == if |head| <= maxLength then |head| else maxLength
      modifies stack
      ensures Valid() && OnlyRegion(stack, argName.value, maxLength)
      ensures ret == if call.text.None? then -1 else 0
      ensures ret == 0 ==> Shows(stack, argName.value, maxLength, Title(call, prefix))
      ensures Begins(stack, argName.value, maxLength, Lead(call, prefix))
    {
      if call.text.None? {
        FailToFormat(stack, argName.value + off, maxLength - off);
        return -1;
      }
      WriteText(stack, argName.value, maxLength, Lead(call, prefix), off, call.text.value);
      ret := 0;
    }

    /** Restoring: a NULL format, as long as argv[0] holds no '%', shows exactly argv[0] again. */
    method Restore(call: Call) returns (ret: int)
      requires Valid() && call.fmt.None? && moduleArg.Some? && PERCENT !in moduleArg.value
      requires Formats(call, moduleArg.value) && 0 < maxLength
      modifies stack
      ensures ret == 0 && Shows(stack, argName.value, maxLength, moduleArg.value)
      ensures IsString(stack[..], argName.value) && StringAt(stack[..], argName.value) == moduleArg.value
    {
      ret := SetProcessName(call);
      ShownTitle(stack, argName.value, maxLength, moduleArg.value);
    }

    /** What a call leaves in the region. */
    ghost predicate Left(call: Call)
      requires argName.Some?
      reads this`argName, this`maxLength, this`prefix, stack
    {
      if call.text.Some? then Shows(stack, argName.value, maxLength, Title(call, prefix))
      else Begins(stack, argName.value, maxLength, Lead(call, prefix))
    }

    /** After any sequence of calls the region shows the title of the last one and nothing of the others -
        or, if the last one could not be formatted, begins with its prefix - and the rest of the memory is
        as it was. Without a region every call fails and nothing changes. */
    method SetProcessNames(calls: seq<Call>) returns (rets: seq<int>)
      requires Valid()
      requires argName.Some? && maxLength > 0 ==> moduleArg.Some?
      modifies stack
      ensures Valid() && |rets| == |calls|
      ensures if argName.None? || maxLength == 0 then
                stack[..] == old(stack[..]) && forall i | 0 <= i < |rets| :: rets[i] == -1
              else
                && OnlyRegion(stack, argName.value, maxLength)
                && (calls != [] ==> Left(calls[|calls| - 1]))
                && forall i | 0 <= i < |rets| :: rets[i] == if calls[i].text.None? then -1 else 0
    {
      rets := [];
      for n := 0 to |calls|
        invariant Valid() && |rets| == n
        invariant if argName.None? || maxLength == 0 then
                    stack[..] == old(stack[..]) && forall i | 0 <= i < n :: rets[i] == -1
                  else
                    && OnlyRegion(stack, argName.value, maxLength)
                    && (n > 0 ==> Left(calls[n - 1]))
                    && forall i | 0 <= i < n :: rets[i] == if calls[i].text.None? then -1 else 0
      {
        var ret := SetProcessName(calls[n]);
        rets := rets + [ret];
      }
    }
  }
}

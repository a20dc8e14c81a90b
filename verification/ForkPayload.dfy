/** The two string lists a fork request carries: client_prepare in client/jail.c and child_parse in
    server/child.c. */
module ForkPayload {
  import opened Bytes
  import opened StringList
  import Environ

  /** sizeof of the frame buffer client_execute_* fills. */
  const FRAME_BUFFER := 8192

  datatype Lists = Lists(argv: seq<CString>, env: seq<CString>)

  /** The bytes a request needs for its lists: every argument and every admitted variable with its NUL, and
      a NUL behind each list. */
  function Needs(argv: seq<CString>, environ: seq<CString>): nat {
    Room(argv) + 1 + Room(PermittedOnly(environ)) + 1
  }

  /** The lists are refused exactly when they need more than the frame buffer has behind the header. */
  lemma PrepareFits(argv: seq<CString>, environ: seq<CString>, offset: nat)
    requires offset < FRAME_BUFFER
    ensures Prepare(argv, environ, offset).Some? <==> offset + Needs(argv, environ) <= FRAME_BUFFER
    ensures Prepare(argv, environ, offset).Some? ==>
              |Prepare(argv, environ, offset).value| == Needs(argv, environ)
  {
    Layout(argv);
    Layout(PermittedOnly(environ));
  }

  /** client_prepare_env keeps the permitted entries, in order. */
  function PermittedOnly(environ: seq<CString>): seq<CString> {
    if environ == [] then
      []
    else
      (if Environ.Permitted(environ[0]) then [environ[0]] else []) + PermittedOnly(environ[1..])
  }

  /** client_prepare: both lists one after the other, if they fit behind offset header bytes. */
  function Prepare(argv: seq<CString>, environ: seq<CString>, offset: nat): (r: Option<bytes>)
    requires offset < FRAME_BUFFER
    ensures r.Some? ==> 2 <= |r.value| <= FRAME_BUFFER - offset
  {
    var a := Serialize(argv);
    var e := Serialize(PermittedOnly(environ));
    if |a| <= FRAME_BUFFER - offset - 1 && |a| + |e| <= FRAME_BUFFER - offset then Some(a + e)
    else None
  }

  /** child_parse over the env field of a fork frame; the argument list may not use the last byte. */
  function Unpack(field: bytes): Option<Lists>
    requires |field| >= 1
  {
    match Parse(field[..|field| - 1])
    case None => None
    case Some(argv) =>
      match Parse(field[argv.used..])
      case None => None
      case Some(env) => Some(Lists(argv.list, env.list))
  }

  /** The field holds a list that ends before the last byte, and behind its end another. */
  ghost predicate TwoLists(field: bytes) {
    exists i: nat :: i + 1 < |field| && FirstEnd(field, i) && HasEnd(field[i + 1..])
  }

  ghost predicate HasEnd(b: bytes) {
    exists i: nat :: EndsList(b, i)
  }

  ghost predicate FirstEnd(b: bytes, i: nat) {
    EndsList(b, i) && forall k: nat | EndsList(b, k) :: i <= k
  }

  /** Exactly such fields are taken apart. */
  lemma UnpackLanguage(field: bytes)
    requires |field| >= 1
    ensures Unpack(field).Some? <==> TwoLists(field)
  {
    var window := field[..|field| - 1];
    assert forall i: nat | i < |window| :: EndsList(window, i) <==> EndsList(field, i);
    ParseLanguage(window);
    if Parse(window).Some? {
      var used := Parse(window).value.used;
      assert FirstEnd(field, used - 1);
      ParseLanguage(field[used..]);
      assert forall i: nat | FirstEnd(field, i) :: i == used - 1;
    }
  }

  /** What the session makes of a client's lists. An empty argument ends the argument list, and the
      strings behind it are then taken for the environment. */
  function Received(argv: seq<CString>, environ: seq<CString>): Lists {
    var k := FirstEmpty(argv);
    Lists(argv[..k], if k == |argv| then PermittedOnly(environ) else Cut(argv[k + 1..]))
  }

  lemma {:induction false} PermittedAreNonEmpty(environ: seq<CString>)
    ensures AllNonEmpty(PermittedOnly(environ))
    ensures forall i | 0 <= i < |PermittedOnly(environ)| :: Environ.Permitted(PermittedOnly(environ)[i])
  {
    if environ != [] {
      PermittedAreNonEmpty(environ[1..]);
      assert Environ.LC_ != [];
    }
  }

  /** Serialising and reading back within a window that leaves out some of what follows the list. */
  lemma ParseWindow(list: seq<CString>, rest: bytes, window: bytes)
    requires window <= Serialize(list) + rest && |Serialize(list)| <= |window|
    ensures Parse(window) == Some(Parsed(Cut(list), |Serialize(Cut(list))|))
  {
    var tail := window[|Serialize(list)|..];
    assert window == Serialize(list) + tail;
    SerializeThenParse(list, tail);
  }

  /** The fork payload round trip, for every argument vector and environment that need no more than there is
      room for: the session accepts it, and reads both lists unchanged exactly when no argument is empty; otherwise it
      reads Received. */
  lemma RoundTrip(argv: seq<CString>, environ: seq<CString>, offset: nat)
    requires offset + Needs(argv, environ) <= FRAME_BUFFER
    ensures Prepare(argv, environ, offset).Some?
    ensures Unpack(Prepare(argv, environ, offset).value) == Some(Received(argv, environ))
    ensures Unpack(Prepare(argv, environ, offset).value) == Some(Lists(argv, PermittedOnly(environ)))
       <==> AllNonEmpty(argv)
  {
    PrepareFits(argv, environ, offset);
    BothLists(argv, environ);
    ReceivedUnchanged(argv, environ);
  }

  lemma BothLists(argv: seq<CString>, environ: seq<CString>)
    ensures Unpack(Serialize(argv) + Serialize(PermittedOnly(environ))) == Some(Received(argv, environ))
  {
    FirstList(argv, Serialize(PermittedOnly(environ)));
    SecondList(argv, environ);
  }

  /** What the first array_parse finds in all but the last byte. */
  lemma FirstList(argv: seq<CString>, e: bytes)
    requires e != []
    ensures var field := Serialize(argv) + e;
            Parse(field[..|field| - 1]) == Some(Parsed(Cut(argv), |Serialize(Cut(argv))|))
  {
    var field := Serialize(argv) + e;
    assert field[..|field| - 1] <= field;
    ParseWindow(argv, e, field[..|field| - 1]);
  }

  lemma ReceivedUnchanged(argv: seq<CString>, environ: seq<CString>)
    ensures Received(argv, environ) == Lists(argv, PermittedOnly(environ)) <==> AllNonEmpty(argv)
  {
    if !AllNonEmpty(argv) {
      assert |Received(argv, environ).argv| < |argv|;
    }
  }

  /** What the second array_parse finds behind the bytes the first one used. */
  lemma SecondList(argv: seq<CString>, environ: seq<CString>)
    ensures var field := Serialize(argv) + Serialize(PermittedOnly(environ));
            var used := |Serialize(Cut(argv))|;
            used <= |field| && Parse(field[used..]).Some?
            && Parse(field[used..]).value.list == Received(argv, environ).env
  {
    if FirstEmpty(argv) == |argv| {
      PermittedAreNonEmpty(environ);
      BehindWhole(argv, PermittedOnly(environ));
    } else {
      BehindCut(argv, Serialize(PermittedOnly(environ)));
    }
  }

  lemma BehindWhole(argv: seq<CString>, env: seq<CString>)
    requires AllNonEmpty(env)
    ensures Parse((Serialize(argv) + Serialize(env))[|Serialize(argv)|..]) == Some(Parsed(env, |Serialize(env)|))
  {
    Behind(Serialize(argv), Serialize(env));
    SerializeThenParse(env, []);
    assert Serialize(env) + [] == Serialize(env);
  }

  lemma BehindCut(argv: seq<CString>, e: bytes)
    requires FirstEmpty(argv) < |argv|
    ensures var used := |Serialize(Cut(argv))|;
            var left := Cut(argv[FirstEmpty(argv) + 1..]);
            used <= |Serialize(argv)| && Parse((Serialize(argv) + e)[used..]) == Some(Parsed(left, |Serialize(left)|))
  {
    var head, rest := Serialize(Cut(argv)), Serialize(argv[FirstEmpty(argv) + 1..]);
    SerializeSplit(argv);
    assert Serialize(argv) + e == head + (rest + e);
    Behind(head, rest + e);
    SerializeThenParse(argv[FirstEmpty(argv) + 1..], e);
  }

  lemma Behind(a: bytes, b: bytes)
    ensures (a + b)[|a|..] == b
  {
  }

  /** Pointers that denote the strings of a list are read as that list. */
  lemma DenotedTexts(memory: bytes, ps: seq<nat>, list: seq<CString>)
    requires |ps| == |list| && forall i | 0 <= i < |ps| :: Denotes(memory, ps[i], list[i])
    ensures (forall i | 0 <= i < |ps| :: IsString(memory, ps[i])) && Texts(memory, ps) == list
  {
    forall i | 0 <= i < |ps|
      ensures IsString(memory, ps[i]) && StringAt(memory, ps[i]) == list[i]
    {
      assert Denotes(memory, ps[i], list[i]);
      EndOfElement(memory, ps[i], list[i]);
    }
  }

  /** client_prepare_argv: all arguments, unless memory runs out. */
  method ClientPrepareArgv(argv: seq<CString>, works: bool) returns (args: Option<seq<CString>>)
    ensures args.Some? ==> args.value == argv
    ensures works ==> args.Some?
  {
    var strings := new StringArray(works);
    for i := 0 to |argv|
      invariant strings.Valid() && strings.Contents() == argv[..i] && strings.works == works
      invariant fresh(strings) && fresh(strings.slots)
    {
      var ret := strings.Push(argv[i]);
      if ret != 0 {
        return None;
      }
    }
    args := Some(strings.slots[..strings.count]);
  }

  /** client_prepare_env: the permitted variables in order, unless memory runs out. */
  method ClientPrepareEnv(environ: seq<CString>, works: bool) returns (env: Option<seq<CString>>)
    ensures env.Some? ==> env.value == PermittedOnly(environ)
    ensures works ==> env.Some?
  {
    var strings := new StringArray(works);
    for i := 0 to |environ|
      invariant strings.Valid() && strings.Contents() == PermittedOnly(environ[..i]) && strings.works == works
      invariant fresh(strings) && fresh(strings.slots)
    {
      PermittedOnlySnoc(environ, i);
      var permitted := Environ.EnvironPermitted(environ[i]);
      if permitted {
        var ret := strings.Push(environ[i]);
        if ret != 0 {
          return None;
        }
      }
    }
    assert environ[..|environ|] == environ;
    env := Some(strings.slots[..strings.count]);
  }

  /** client_prepare: fills the arrays, then the frame buffer behind offset; the size handed to each
      array_serialize never underflows. failed says that memory ran out, which works rules out. */
  method ClientPrepare(argv: seq<CString>, environ: seq<CString>, buffer: array<byte>, offset: nat, works: bool)
    returns (ret: int, failed: bool)
    requires buffer.Length == FRAME_BUFFER && offset < FRAME_BUFFER
    modifies buffer
    ensures failed ==> ret == -1 && !works
    ensures !failed ==>
              if offset + Needs(argv, environ) <= FRAME_BUFFER then ret == offset + Needs(argv, environ)
              else ret == -1
    ensures !failed ==>
              match Prepare(argv, environ, offset)
              case None => ret == -1
              case Some(field) => ret == offset + |field| && buffer[offset..ret] == field
    ensures buffer[..offset] == old(buffer[..offset])
  {
    failed := true;
    var args := ClientPrepareArgv(argv, works);
    if args.None? {
      return -1, failed;
    }
    var env := ClientPrepareEnv(environ, works);
    if env.None? {
      return -1, failed;
    }
    failed := false;
    PrepareFits(argv, environ, offset);
    ret := SerializeBoth(args.value, env.value, buffer, offset);
  }

  /** The two array_serialize calls of client_prepare. */
  method SerializeBoth(args: seq<CString>, env: seq<CString>, buffer: array<byte>, offset: nat)
    returns (ret: int)
    requires buffer.Length == FRAME_BUFFER && offset < FRAME_BUFFER
    modifies buffer
    ensures var a, e, room := Serialize(args), Serialize(env), FRAME_BUFFER - offset;
            if |a| <= room - 1 && |a| + |e| <= room then
              ret == offset + |a| + |e| && buffer[offset..ret] == a + e
            else ret == -1
    ensures buffer[..offset] == old(buffer[..offset])
  {
    var la := ArraySerialize(args, buffer, offset, FRAME_BUFFER - offset - 1);
    if la < 0 {
      return -1;
    }
    ghost var a := buffer[offset..offset + la];
    var le := ArraySerialize(env, buffer, offset + la, FRAME_BUFFER - offset - la);
    if le < 0 {
      return -1;
    }
    ret := offset + la + le;
    assert buffer[offset..offset + la] == a;
    assert buffer[offset..ret] == buffer[offset..offset + la] + buffer[offset + la..ret];
  }

  lemma PermittedOnlySnoc(environ: seq<CString>, i: nat)
    requires i < |environ|
    ensures PermittedOnly(environ[..i + 1])
         == PermittedOnly(environ[..i]) + (if Environ.Permitted(environ[i]) then [environ[i]] else [])
  {
    PermittedOnlyAppend(environ[..i], [environ[i]]);
    assert environ[..i + 1] == environ[..i] + [environ[i]];
    assert PermittedOnly([environ[i]][1..]) == [];
  }

  lemma {:induction false} PermittedOnlyAppend(xs: seq<CString>, ys: seq<CString>)
    ensures PermittedOnly(xs + ys) == PermittedOnly(xs) + PermittedOnly(ys)
  {
    if xs == [] {
      assert xs + ys == ys;
    } else {
      PermittedOnlyAppend(xs[1..], ys);
      assert (xs + ys)[1..] == xs[1..] + ys;
    }
  }

  lemma InsideWindow(field: bytes, window: bytes)
    requires window <= field
    ensures forall p: nat, s: CString | Denotes(window, p, s) :: Denotes(field, p, s)
  {
    forall p: nat, s: CString | Denotes(window, p, s)
      ensures Denotes(field, p, s)
    {
      assert field[p..p + |s|] == window[p..p + |s|];
    }
  }

  lemma DenotesBehind(field: bytes, used: nat, p: nat, s: CString)
    requires used <= |field| && Denotes(field[used..], p, s)
    ensures Denotes(field, used + p, s)
  {
    assert field[used + p..used + p + |s|] == field[used..][p..p + |s|];
  }

  /** child_parse: pointers into the frame for both lists. The dispatcher has checked that the field
      has a byte, and what array_parse used leaves the second call at least one. */
  method ChildParse(field: bytes) returns (ret: int, argv: seq<nat>, env: seq<nat>)
    requires |field| >= 1
    ensures match Unpack(field)
            case None => ret == -1
            case Some(lists) =>
              ret == 0 && |argv| == |lists.argv| && |env| == |lists.env|
              && (forall i | 0 <= i < |argv| :: Denotes(field, argv[i], lists.argv[i]))
              && (forall i | 0 <= i < |env| :: Denotes(field, env[i], lists.env[i]))
  {
    env := [];
    var used, more;
    ghost var window := field[..|field| - 1];
    argv, used := ArrayParse(field[..|field| - 1]);
    if used < 0 {
      return -1, argv, env;
    }
    InsideWindow(field, window);
    var tail := field[used..];
    var offsets;
    offsets, more := ArrayParse(tail);
    if more < 0 {
      return -1, argv, env;
    }
    env := seq(|offsets|, i requires 0 <= i < |offsets| => used + offsets[i]);
    ghost var list := Unpack(field).value.env;
    forall i | 0 <= i < |env|
      ensures Denotes(field, env[i], list[i])
    {
      DenotesBehind(field, used, offsets[i], list[i]);
    }
    ret := 0;
  }
}

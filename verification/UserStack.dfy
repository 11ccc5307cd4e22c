/** The initial stack of a user process (src/kernel/application_loader.rs; section 3.4.1 of the System V AMD64 ABI):
    argc, argv, envp and the auxiliary vector below the strings they point to. */
module UserStack {
  type Byte = b: nat | b < 256

  type Memory = seq<Byte>

  /** One past the highest user stack address. */
  const USER_TOP: nat := 0x8000_0000_0000

  // ---------------------------------------------------------------- writing into memory

  function Splice(m: Memory, at: nat, b: seq<Byte>): Memory
    requires at + |b| <= |m|
  {
    m[..at] + b + m[at + |b|..]
  }

  lemma SpliceAt(m: Memory, at: nat, b: seq<Byte>)
    requires at + |b| <= |m|
    ensures |Splice(m, at, b)| == |m| && Splice(m, at, b)[at..at + |b|] == b
    ensures forall i :: 0 <= i < at ==> Splice(m, at, b)[i] == m[i]
    ensures forall i :: at + |b| <= i < |m| ==> Splice(m, at, b)[i] == m[i]
  {
  }

  lemma SpliceNext(m: Memory, at: nat, a: seq<Byte>, b: seq<Byte>)
    requires at + |a| + |b| <= |m|
    ensures |Splice(m, at, a)| == |m| && Splice(Splice(m, at, a), at + |a|, b) == Splice(m, at, a + b)
  {
  }

  /** The `n` low bytes of `v`, lowest first. */
  function LittleEndian(v: nat, n: nat): (b: seq<Byte>)
    ensures |b| == n
  {
    if n == 0 then [] else [v % 256] + LittleEndian(v / 256, n - 1)
  }

  function Value(b: seq<Byte>): nat { if b == [] then 0 else b[0] + 256 * Value(b[1..]) }

  function Power(n: nat): nat { if n == 0 then 1 else 256 * Power(n - 1) }

  lemma {:induction false} ValueOf(v: nat, n: nat)
    requires v < Power(n)
    ensures Value(LittleEndian(v, n)) == v
  {
    if n > 0 { ValueOf(v / 256, n - 1); }
  }

  function Word(m: Memory, at: nat): nat
    requires at + 8 <= |m|
  {
    Value(m[at..at + 8])
  }

  lemma WordWritten(m: Memory, at: nat, v: nat)
    requires at + 8 <= |m| && v <= USER_TOP
    ensures |Splice(m, at, LittleEndian(v, 8))| == |m| && Word(Splice(m, at, LittleEndian(v, 8)), at) == v
  {
    assert Power(8) == 256 * (256 * (256 * (256 * (256 * (256 * (256 * 256))))));
    ValueOf(v, 8);
    SpliceAt(m, at, LittleEndian(v, 8));
  }

  // ---------------------------------------------------------------- reading it back

  ghost predicate NulFree(s: seq<Byte>) { forall i :: 0 <= i < |s| ==> s[i] != 0 }

  /** The C string at `at`. */
  ghost predicate StringAt(m: Memory, at: nat, s: seq<Byte>) {
    at + |s| < |m| && m[at..at + |s|] == s && m[at + |s|] == 0 && NulFree(s)
  }

  lemma StringUnique(m: Memory, at: nat, s: seq<Byte>, s': seq<Byte>)
    requires StringAt(m, at, s) && StringAt(m, at, s')
    ensures s == s'
  {
    CharAt(m, at, s, |s'|);
    CharAt(m, at, s', |s|);
  }

  lemma CharAt(m: Memory, at: nat, s: seq<Byte>, i: nat)
    requires StringAt(m, at, s)
    ensures i < |s| ==> m[at + i] != 0
  {
    if i < |s| { assert m[at..at + |s|][i] == m[at + i]; }
  }

  /** The pointer at `at` leads, as a user address, to the string. */
  ghost predicate PointerTo(m: Memory, at: nat, s: seq<Byte>) {
    at + 8 <= |m| && USER_TOP - |m| <= Word(m, at) < USER_TOP && StringAt(m, Word(m, at) - (USER_TOP - |m|), s)
  }

  /** The pointers from `at` on lead to the strings and are followed by a null pointer. */
  ghost predicate Vector(m: Memory, at: nat, ss: seq<seq<Byte>>)
    decreases |ss|
  {
    if ss == [] then at + 8 <= |m| && Word(m, at) == 0
    else PointerTo(m, at, ss[0]) && Vector(m, at + 8, ss[1..])
  }

  /** What a program finds at its entry pointer: argc, argv, envp, and the end of the auxiliary vector. */
  ghost predicate Decodes(m: Memory, ap: nat, args: seq<seq<Byte>>, envs: seq<seq<Byte>>) {
    && ap + 8 * (|args| + |envs| + 4) <= |m| < USER_TOP
    && Word(m, ap) == |args| && Vector(m, ap + 8, args) && Vector(m, ap + 8 * (|args| + 2), envs)
    && Word(m, ap + 8 * (|args| + |envs| + 3)) == 0
  }

  lemma {:induction false} VectorUnique(m: Memory, at: nat, ss: seq<seq<Byte>>, ss': seq<seq<Byte>>)
    requires |m| < USER_TOP && Vector(m, at, ss) && Vector(m, at, ss')
    ensures ss == ss'
    decreases |ss|
  {
    if ss != [] && ss' != [] {
      StringUnique(m, Word(m, at) - (USER_TOP - |m|), ss[0], ss'[0]);
      VectorUnique(m, at + 8, ss[1..], ss'[1..]);
      assert ss == [ss[0]] + ss[1..] && ss' == [ss'[0]] + ss'[1..];
    }
  }

  /** Decoding has one result. */
  lemma DecodingUnique(m: Memory, ap: nat, args: seq<seq<Byte>>, envs: seq<seq<Byte>>, args': seq<seq<Byte>>,
                       envs': seq<seq<Byte>>)
    requires Decodes(m, ap, args, envs) && Decodes(m, ap, args', envs')
    ensures args == args' && envs == envs'
  {
    VectorUnique(m, ap + 8, args, args');
    VectorUnique(m, ap + 8 * (|args| + 2), envs, envs');
  }

  // ---------------------------------------------------------------- frames

  ghost predicate Same(m: Memory, m': Memory, lo: nat, hi: nat) {
    |m'| == |m| && forall i :: lo <= i < hi && i < |m| ==> m'[i] == m[i]
  }

  lemma WordKept(m: Memory, m': Memory, lo: nat, hi: nat, at: nat)
    requires Same(m, m', lo, hi) && lo <= at && at + 8 <= hi && at + 8 <= |m|
    ensures Word(m', at) == Word(m, at)
  {
    assert m'[at..at + 8] == m[at..at + 8];
  }

  lemma StringKept(m: Memory, m': Memory, lo: nat, at: nat, s: seq<Byte>)
    requires Same(m, m', lo, |m|) && lo <= at && StringAt(m, at, s)
    ensures StringAt(m', at, s)
  {
    assert m'[at..at + |s|] == m[at..at + |s|];
  }

  // ---------------------------------------------------------------- pointers and strings, one by one

  /** The room that the first `k` strings take. */
  function Room(ss: seq<seq<Byte>>, k: nat): nat
    requires k <= |ss|
  {
    if k == 0 then 0 else Room(ss, k - 1) + |ss[k - 1]| + 1
  }

  lemma {:induction false} RoomMono(ss: seq<seq<Byte>>, i: nat, k: nat)
    requires i <= k <= |ss|
    ensures Room(ss, i) <= Room(ss, k)
    decreases k
  {
    if i < k { RoomMono(ss, i, k - 1); }
  }

  /** Pointer `i` of the vector at `at` is written, and its string below the `used` bytes taken before. */
  ghost predicate Entry(m: Memory, at: nat, ss: seq<seq<Byte>>, used: nat, i: nat)
    requires i < |ss|
  {
    var room := used + Room(ss, i + 1);
    && at + 8 * i + 8 <= |m| && room <= |m| < USER_TOP
    && Word(m, at + 8 * i) == USER_TOP - room && StringAt(m, |m| - room, ss[i])
  }

  ghost predicate Done(m: Memory, at: nat, ss: seq<seq<Byte>>, used: nat, k: nat) {
    k <= |ss| && forall i :: 0 <= i < k ==> Entry(m, at, ss, used, i)
  }

  /** What is written later, between the pointers and the strings that are done, does not disturb them. */
  lemma DoneKept(m: Memory, m': Memory, at: nat, ss: seq<seq<Byte>>, used: nat, k: nat, lo: nat, hi: nat)
    requires Done(m, at, ss, used, k) && at + 8 * k <= lo && used + Room(ss, k) <= |m| &&
      hi <= |m| - (used + Room(ss, k))
    requires Same(m, m', 0, lo) && Same(m, m', hi, |m|)
    ensures Done(m', at, ss, used, k)
  {
    hide Word, StringAt, Room;
    forall i | 0 <= i < k ensures Entry(m', at, ss, used, i) {
      assert Entry(m, at, ss, used, i);
      RoomMono(ss, i + 1, k);
      WordKept(m, m', 0, lo, at + 8 * i);
      StringKept(m, m', hi, |m| - (used + Room(ss, i + 1)), ss[i]);
    }
  }

  /** All pointers and the null pointer after them make a vector. */
  lemma {:induction false} DoneVector(m: Memory, at: nat, ss: seq<seq<Byte>>, used: nat, k: nat)
    requires Done(m, at, ss, used, |ss|) && k <= |ss| && at + 8 * |ss| + 8 <= |m| && Word(m, at + 8 * |ss|) == 0
    ensures Vector(m, at + 8 * k, ss[k..])
    decreases |ss| - k
  {
    hide Word, StringAt;
    if k < |ss| {
      DoneVector(m, at, ss, used, k + 1);
      assert Entry(m, at, ss, used, k);
      assert ss[k..][0] == ss[k] && ss[k..][1..] == ss[k + 1..];
    }
  }

  /** One string and its pointer. */
  lemma DoneStep(m: Memory, m1: Memory, m2: Memory, at: nat, ss: seq<seq<Byte>>, used: nat, k: nat)
    requires Done(m, at, ss, used, k) && k < |ss| && NulFree(ss[k]) && |m| < USER_TOP
    requires at + 8 * k + 8 <= |m| - (used + Room(ss, k + 1)) && used + Room(ss, k + 1) <= |m|
    requires m1 == Splice(m, |m| - (used + Room(ss, k + 1)), ss[k] + [0]) && |m1| == |m|
    requires m2 == Splice(m1, at + 8 * k, LittleEndian(USER_TOP - (used + Room(ss, k + 1)), 8))
    ensures Done(m2, at, ss, used, k + 1)
    ensures Same(m, m2, 0, at + 8 * k) && Same(m, m2, |m| - (used + Room(ss, k)), |m|)
  {
    hide Word, LittleEndian, Splice, Entry;
    var low := |m| - (used + Room(ss, k + 1));
    SpliceAt(m, low, ss[k] + [0]);
    SpliceAt(m1, at + 8 * k, LittleEndian(USER_TOP - (used + Room(ss, k + 1)), 8));
    WordWritten(m1, at + 8 * k, USER_TOP - (used + Room(ss, k + 1)));
    StringWritten(m1, low, ss[k]);
    StringKept(m1, m2, low, low, ss[k]);
    DoneKept(m, m2, at, ss, used, k, at + 8 * k, |m| - (used + Room(ss, k)));
    NewEntry(m2, at, ss, used, k);
  }

  lemma NewEntry(m: Memory, at: nat, ss: seq<seq<Byte>>, used: nat, k: nat)
    requires k < |ss| && at + 8 * k + 8 <= |m| && used + Room(ss, k + 1) <= |m| < USER_TOP
    requires Word(m, at + 8 * k) == USER_TOP - (used + Room(ss, k + 1)) &&
      StringAt(m, |m| - (used + Room(ss, k + 1)), ss[k])
    ensures Entry(m, at, ss, used, k)
  {
  }

  lemma StringWritten(m: Memory, at: nat, s: seq<Byte>)
    requires at + |s| < |m| && m[at..at + |s| + 1] == s + [0] && NulFree(s)
    ensures StringAt(m, at, s)
  {
    assert m[at..at + |s|] == m[at..at + |s| + 1][..|s|];
    assert m[at + |s|] == m[at..at + |s| + 1][|s|];
  }

  // ---------------------------------------------------------------- building

  /** copy_nonoverlapping. */
  method CopyBytes(mem: array<Byte>, at: nat, b: seq<Byte>)
    requires at + |b| <= mem.Length
    modifies mem
    ensures mem[..] == Splice(old(mem[..]), at, b)
  {
    ghost var m := mem[..];
    for i := 0 to |b|
      invariant mem[..] == Splice(m, at, b[..i])
    {
      SpliceNext(m, at, b[..i], [b[i]]);
      assert b[..i + 1] == b[..i] + [b[i]];
      SpliceOne(mem[..], at + i, b[i]);
      mem[at + i] := b[i];
    }
    assert b[..|b|] == b;
  }

  lemma SpliceOne(m: Memory, at: nat, x: Byte)
    requires at < |m|
    ensures Splice(m, at, [x]) == m[at := x]
  {
  }

  /** An argument below the `used` bytes, with its end mark. */
  method PutArgument(mem: array<Byte>, used: nat, s: seq<Byte>)
    requires used + |s| + 1 <= mem.Length
    modifies mem
    ensures mem[..] == Splice(old(mem[..]), mem.Length - (used + |s| + 1), s + [0])
  {
    ghost var m := mem[..];
    SpliceNext(m, mem.Length - used - |s| - 1, s, [0]);
    CopyBytes(mem, mem.Length - used - |s| - 1, s);
    CopyBytes(mem, mem.Length - used - 1, [0]);
  }

  function EnvString(key: seq<Byte>, value: seq<Byte>): seq<Byte> { key + [61] + value }

  /** An environment entry, written as key, equals sign, value and end mark. */
  method PutEnvironment(mem: array<Byte>, used: nat, key: seq<Byte>, value: seq<Byte>)
    requires used + |key| + |value| + 2 <= mem.Length
    modifies mem
    ensures mem[..] == Splice(old(mem[..]), mem.Length - (used + |EnvString(key, value)| + 1),
                              EnvString(key, value) + [0])
  {
    ghost var m := mem[..];
    var len := |key| + 1 + |value|;
    ghost var at := mem.Length - used - len - 1;
    SpliceNext(m, at, key, [61]);
    SpliceNext(m, at, key + [61], value);
    SpliceNext(m, at, key + [61] + value, [0]);
    CopyBytes(mem, mem.Length - used - len - 1, key);
    len := len - |key|;
    CopyBytes(mem, mem.Length - used - len - 1, [61]);
    len := len - 1;
    CopyBytes(mem, mem.Length - used - len - 1, value);
    CopyBytes(mem, mem.Length - used - 1, [0]);
  }

  method PutWord(mem: array<Byte>, at: nat, v: nat)
    requires at + 8 <= mem.Length && v <= USER_TOP
    modifies mem
    ensures Word(mem[..], at) == v
    ensures mem[..] == Splice(old(mem[..]), at, LittleEndian(v, 8))
    ensures Same(old(mem[..]), mem[..], 0, at) && Same(old(mem[..]), mem[..], at + 8, mem.Length)
  {
    hide Word, LittleEndian, Splice;
    ghost var m := mem[..];
    CopyBytes(mem, at, LittleEndian(v, 8));
    WordWritten(m, at, v);
    SpliceAt(m, at, LittleEndian(v, 8));
  }

  /** The strings of the environment. */
  function EnvStrings(envs: seq<(seq<Byte>, seq<Byte>)>): (ss: seq<seq<Byte>>)
    ensures |ss| == |envs| && forall i :: 0 <= i < |envs| ==> ss[i] == EnvString(envs[i].0, envs[i].1)
  {
    seq(|envs|, i requires 0 <= i < |envs| => EnvString(envs[i].0, envs[i].1))
  }

  ghost predicate Fits(n: nat, at: nat, ss: seq<seq<Byte>>, used: nat) {
    at + 8 * |ss| <= n - (used + Room(ss, |ss|)) && used + Room(ss, |ss|) <= n < USER_TOP && forall i ::
      0 <= i < |ss| ==> NulFree(ss[i])
  }

  lemma FitsAt(n: nat, at: nat, ss: seq<seq<Byte>>, used: nat, k: nat)
    requires Fits(n, at, ss, used) && k < |ss|
    ensures at + 8 * k + 8 <= n - (used + Room(ss, k + 1)) && used + Room(ss, k + 1) <= n && NulFree(ss[k])
    ensures Room(ss, k + 1) == Room(ss, k) + |ss[k]| + 1
  {
    RoomMono(ss, k + 1, |ss|);
  }

  /** The loop over the arguments: strings downwards from the top, pointers upwards. */
  method PutArguments(mem: array<Byte>, at: nat, ss: seq<seq<Byte>>) returns (used: nat)
    requires Fits(mem.Length, at, ss, 0) && mem.Length < USER_TOP
    modifies mem
    ensures used == Room(ss, |ss|) && Done(mem[..], at, ss, 0, |ss|) && Same(old(mem[..]), mem[..], 0, at)
  {
    hide Entry, NulFree, Splice, LittleEndian, Room, Fits, Word;
    used := 0;
    RoomNone(ss);
    for k := 0 to |ss|
      invariant used == Room(ss, k) && Done(mem[..], at, ss, 0, k) && Same(old(mem[..]), mem[..], 0, at)
    {
      FitsAt(mem.Length, at, ss, 0, k);
      ghost var m := mem[..];
      PutArgument(mem, used, ss[k]);
      ghost var m1 := mem[..];
      used := used + |ss[k]| + 1;
      PutWord(mem, at + 8 * k, USER_TOP - used);
      DoneStep(m, m1, mem[..], at, ss, 0, k);
    }
  }

  lemma RoomNone(ss: seq<seq<Byte>>)
    ensures Room(ss, 0) == 0
  {
  }

  /** The loop over the environment. */
  method PutEnvironments(mem: array<Byte>, at: nat, envs: seq<(seq<Byte>, seq<Byte>)>, before: nat) returns (used: nat)
    requires Fits(mem.Length, at, EnvStrings(envs), before) && before <= mem.Length < USER_TOP
    modifies mem
    ensures var ss := EnvStrings(envs);
      used == before + Room(ss, |ss|) && Done(mem[..], at, ss, before, |ss|)
    ensures Same(old(mem[..]), mem[..], 0, at) && Same(old(mem[..]), mem[..], mem.Length - before, mem.Length)
  {
    hide Entry, NulFree, Splice, LittleEndian, Room, Fits, Word;
    used := before;
    ghost var ss := EnvStrings(envs);
    RoomNone(ss);
    for k := 0 to |envs|
      invariant used == before + Room(ss, k) && Done(mem[..], at, ss, before, k)
      invariant Same(old(mem[..]), mem[..], 0, at) && Same(old(mem[..]), mem[..], mem.Length - before, mem.Length)
    {
      FitsAt(mem.Length, at, ss, before, k);
      ghost var m := mem[..];
      PutEnvironment(mem, used, envs[k].0, envs[k].1);
      ghost var m1 := mem[..];
      used := used + |envs[k].0| + 1 + |envs[k].1| + 1;
      PutWord(mem, at + 8 * k, USER_TOP - used);
      DoneStep(m, m1, mem[..], at, ss, before, k);
    }
  }

  lemma Assemble(m: Memory, ap: nat, args: seq<seq<Byte>>, envs: seq<seq<Byte>>)
    requires ap + 8 * (|args| + |envs| + 4) <= |m| < USER_TOP && Word(m, ap) == |args|
    requires Done(m, ap + 8, args, 0, |args|) && Word(m, ap + 8 + 8 * |args|) == 0
    requires Done(m, ap + 8 * (|args| + 2), envs, Room(args, |args|), |envs|) &&
      Word(m, ap + 8 * (|args| + |envs| + 2)) == 0
    requires Word(m, ap + 8 * (|args| + |envs| + 3)) == 0
    ensures Decodes(m, ap, args, envs)
  {
    hide Word, Entry;
    DoneVector(m, ap + 8, args, 0, 0);
    DoneVector(m, ap + 8 * (|args| + 2), envs, Room(args, |args|), 0);
    assert args[0..] == args && envs[0..] == envs;
  }

  function RoundUp8(n: nat): (r: nat)
    ensures n <= r < n + 8 && r % 8 == 0
  {
    if n % 8 != 0 then n - n % 8 + 8 else n
  }

  /** The distance of the entry pointer from the top: strings, auxiliary vector, and the pointers below. */
  function Offset(args: seq<seq<Byte>>, envs: seq<seq<Byte>>): nat {
    RoundUp8(Room(args, |args|) + Room(envs, |envs|) + 16) + 8 * (1 + |args| + 1 + |envs| + 1)
  }

  /** argc, argv and the null pointer after it. */
  method PutHead(mem: array<Byte>, ap: nat, args: seq<seq<Byte>>) returns (used: nat)
    requires Fits(mem.Length, ap + 8, args, 0) && ap + 8 * (|args| + 2) <= mem.Length - Room(args, |args|)
    modifies mem
    ensures used == Room(args, |args|) && Word(mem[..], ap) == |args|
    ensures Done(mem[..], ap + 8, args, 0, |args|) && Word(mem[..], ap + 8 + 8 * |args|) == 0
  {
    hide Word, Entry, Splice, LittleEndian, Room;
    PutWord(mem, ap, |args|);
    ghost var m1 := mem[..];
    used := PutArguments(mem, ap + 8, args);
    ghost var m2 := mem[..];
    WordKept(m1, m2, 0, ap + 8, ap);
    PutWord(mem, ap + 8 + 8 * |args|, 0);
    WordKept(m2, mem[..], 0, ap + 8 + 8 * |args|, ap);
    DoneKept(m2, mem[..], ap + 8, args, 0, |args|, ap + 8 + 8 * |args|, mem.Length - Room(args, |args|));
  }

  /** What later writes below `hi` leave alone. */
  lemma HeadKept(m: Memory, m': Memory, ap: nat, args: seq<seq<Byte>>, hi: nat)
    requires Room(args, |args|) <= |m| && ap + 8 * (|args| + 2) <= |m| && hi <= |m| - Room(args, |args|)
    requires Same(m, m', 0, ap + 8 * (|args| + 2)) && Same(m, m', hi, |m|)
    requires Word(m, ap) == |args| && Done(m, ap + 8, args, 0, |args|) && Word(m, ap + 8 + 8 * |args|) == 0
    ensures Word(m', ap) == |args| && Done(m', ap + 8, args, 0, |args|) && Word(m', ap + 8 + 8 * |args|) == 0
  {
    hide Word, Entry, Room;
    WordKept(m, m', 0, ap + 8 * (|args| + 2), ap);
    WordKept(m, m', 0, ap + 8 * (|args| + 2), ap + 8 + 8 * |args|);
    DoneKept(m, m', ap + 8, args, 0, |args|, ap + 8 * (|args| + 2), hi);
  }

  /** The null pointer after envp, and the auxiliary vector, which is written over it. */
  method PutTail(mem: array<Byte>, ap: nat, ghost entry: nat, ghost args: seq<seq<Byte>>, ghost envs: seq<seq<Byte>>)
    requires ap == entry + 8 * (|args| + |envs| + 2) &&
      ap + 16 <= mem.Length - (Room(args, |args|) + Room(envs, |envs|)) && mem.Length < USER_TOP
    requires Room(args, |args|) + Room(envs, |envs|) <= mem.Length
    requires Word(mem[..], entry) == |args| && Done(mem[..], entry + 8, args, 0, |args|) &&
      Word(mem[..], entry + 8 + 8 * |args|) == 0
    requires Done(mem[..], entry + 8 * (|args| + 2), envs, Room(args, |args|), |envs|)
    modifies mem
    ensures Decodes(mem[..], entry, args, envs)
  {
    hide Word, Entry, Room, Decodes, Splice, LittleEndian;
    ghost var m := mem[..];
    PutWord(mem, ap, 0);
    PutWord(mem, ap, 0);
    ghost var m1 := mem[..];
    PutWord(mem, ap + 8, 0);
    WordKept(m1, mem[..], 0, ap + 8, ap);
    HeadKept(m, mem[..], entry, args, ap + 16);
    DoneKept(m, mem[..], entry + 8 * (|args| + 2), envs, Room(args, |args|), |envs|, ap, ap + 16);
    Assemble(mem[..], entry, args, envs);
  }

  /** The image is a multiple of 8 bytes, so that every pointer is aligned as the stack top is, and no 8 bytes longer
      than the strings, the auxiliary vector and the words of argc, argv and envp. */
  ghost predicate Snug(offset: nat, args: seq<seq<Byte>>, envs: seq<seq<Byte>>) {
    var room := Room(args, |args|) + Room(envs, |envs|) + 16 + 8 * (|args| + |envs| + 3);
    offset % 8 == 0 && room <= offset < room + 8
  }

  lemma OffsetSnug(args: seq<seq<Byte>>, envs: seq<seq<Byte>>)
    ensures Snug(Offset(args, envs), args, envs)
  {
    hide Room;
  }

  /** The loops that add up the room for the strings. */
  method ComputeOffset(args: seq<seq<Byte>>, environments: seq<(seq<Byte>, seq<Byte>)>) returns (offset: nat)
    ensures offset == Offset(args, EnvStrings(environments))
  {
    hide EnvStrings, RoundUp8;
    ghost var envs := EnvStrings(environments);
    offset := 0;
    for i := 0 to |args|
      invariant offset == Room(args, i)
    {
      offset := offset + |args[i]| + 1;
    }
    for i := 0 to |environments|
      invariant offset == Room(args, |args|) + Room(envs, i)
    {
      offset := offset + |environments[i].0| + 1 + |environments[i].1| + 1;
    }
    offset := RoundUp8(offset + 16);
    offset := offset + 8 * (1 + |args| + 1 + |environments| + 1);
  }

  /** The whole image: for all strings without NUL that fit, a program that decodes the stack from the entry pointer
      finds the arguments and the environment. The null pointer after envp is overwritten by the auxiliary vector,
      whose first word is zero as well. */
  method Build(mem: array<Byte>, fileName: seq<Byte>, arguments: seq<seq<Byte>>,
               environments: seq<(seq<Byte>, seq<Byte>)>) returns (entry: nat)
    requires Offset([fileName] + arguments, EnvStrings(environments)) <= mem.Length < USER_TOP
    requires NulFree(fileName) && (forall i :: 0 <= i < |arguments| ==> NulFree(arguments[i]))
    requires forall i :: 0 <= i < |environments| ==> NulFree(EnvStrings(environments)[i])
    modifies mem
    ensures entry == mem.Length - Offset([fileName] + arguments, EnvStrings(environments))
    ensures Snug(mem.Length - entry, [fileName] + arguments, EnvStrings(environments))
    ensures Decodes(mem[..], entry, [fileName] + arguments, EnvStrings(environments))
  {
    hide Word, Entry, Room, EnvStrings, RoundUp8, NulFree, Decodes, Snug;
    var args := [fileName] + arguments;
    ghost var envs := EnvStrings(environments);
    var offset := ComputeOffset(args, environments);
    OffsetSnug(args, envs);
    entry := mem.Length - offset;
    var ap := entry;
    var used := PutHead(mem, ap, args);
    ghost var m1 := mem[..];
    ap := ap + 8 * (|args| + 2);
    used := PutEnvironments(mem, ap, environments, used);
    ghost var m2 := mem[..];
    HeadKept(m1, m2, entry, args, mem.Length - Room(args, |args|));
    ap := ap + 8 * |environments|;
    assert ap < mem.Length - used;
    PutTail(mem, ap, entry, args, envs);
  }
}

// The unrolled vector multiplication: eight elements at a time in chunks of 32, then the
// remainder one by one.

module VectorMultiply {
  import opened Options

  // The instructions it uses, on the function's argument number `arg`.
  datatype Insn =
    | VLoad(uid: nat, arg: nat, offset: nat)
    | VMul(uid: nat, left: nat, right: nat)
    | VStore(value: nat, arg: nat, offset: nat)
    | Load(uid: nat, arg: nat, offset: nat)
    | Mul(uid: nat, left: nat, right: nat)
    | Store(value: nat, arg: nat, offset: nat)
    | Ret

  // ----- the interpreter, on Python lists of any kind of number -----

  datatype Value<F> = Scalar(x: F) | Vector(xs: seq<F>)

  // writes lists every element stored, in order.
  datatype State<F> = State(env: map<nat, Value<F>>, mem: map<int, seq<F>>, writes: seq<(int, nat)>)

  // A slice stops at the end of the list.
  function Slice<F>(s: seq<F>, lo: nat, hi: nat): seq<F> {
    if lo >= |s| || hi <= lo then [] else if hi >= |s| then s[lo..] else s[lo..hi]
  }

  // zip stops at the shorter vector.
  function Products<F>(mul: (F, F) -> F, xs: seq<F>, ys: seq<F>): (r: seq<F>)
    ensures |r| == if |xs| < |ys| then |xs| else |ys|
    ensures forall k :: 0 <= k < |r| ==> r[k] == mul(xs[k], ys[k])
  {
    seq(if |xs| < |ys| then |xs| else |ys|, k requires 0 <= k < |xs| && k < |ys| => mul(xs[k], ys[k]))
  }

  // Storing elements one after another; past the end raises an error.
  function StoreAll<F>(s: State<F>, h: int, offset: nat, xs: seq<F>, k: nat): Option<State<F>>
    requires k <= |xs|
  {
    if k == 0 then Some(s)
    else
      match StoreAll(s, h, offset, xs, k - 1)
      case None => None
      case Some(t) =>
        var i := offset + k - 1;
        if h in t.mem && i < |t.mem[h]|
        then Some(State(t.env, t.mem[h := t.mem[h][i := xs[k - 1]]], t.writes + [(h, i)])) else None
  }

  function Exec<F>(mul: (F, F) -> F, args: seq<int>, i: Insn, s: State<F>): Option<State<F>> {
    match i
    case VLoad(u, a, o) =>
      if a < |args| && args[a] in s.mem
      then Some(s.(env := s.env[u := Vector(Slice(s.mem[args[a]], o, o + 8))])) else None
    case VMul(u, l, r) =>
      if l in s.env && r in s.env && s.env[l].Vector? && s.env[r].Vector?
      then Some(s.(env := s.env[u := Vector(Products(mul, s.env[l].xs, s.env[r].xs))])) else None
    case VStore(v, a, o) =>
      if a < |args| && v in s.env && s.env[v].Vector? then StoreAll(s, args[a], o, s.env[v].xs, |s.env[v].xs|) else None
    case Load(u, a, o) =>
      if a < |args| && args[a] in s.mem && o < |s.mem[args[a]]|
      then Some(s.(env := s.env[u := Scalar(s.mem[args[a]][o])])) else None
    case Mul(u, l, r) =>
      if l in s.env && r in s.env && s.env[l].Scalar? && s.env[r].Scalar?
      then Some(s.(env := s.env[u := Scalar(mul(s.env[l].x, s.env[r].x))])) else None
    case Store(v, a, o) =>
      if a < |args| && v in s.env && s.env[v].Scalar? then StoreAll(s, args[a], o, [s.env[v].x], 1) else None
    case Ret => Some(s)
  }

  // The first k instructions. None of them jumps.
  function Run<F>(mul: (F, F) -> F, args: seq<int>, code: seq<Insn>, s: State<F>, k: nat): Option<State<F>>
    requires k <= |code|
  {
    if k == 0 then Some(s)
    else match Run(mul, args, code, s, k - 1) case Some(t) => Exec(mul, args, code[k - 1], t) case None => None
  }

  // ----- the program -----

  const CHUNK: nat := 32

  function VectorGroup(u: nat, idx: nat): seq<Insn> {
    [VLoad(u, 0, idx), VLoad(u + 1, 1, idx), VMul(u + 2, u, u + 1), VStore(u + 2, 2, idx)]
  }

  function ScalarGroup(u: nat, idx: nat): seq<Insn> {
    [Load(u, 0, idx), Load(u + 1, 1, idx), Mul(u + 2, u, u + 1), Store(u + 2, 2, idx)]
  }

  function VectorPart(groups: nat): (r: seq<Insn>)
    ensures |r| == 4 * groups
  {
    if groups == 0 then [] else VectorPart(groups - 1) + VectorGroup(4 * (groups - 1), 8 * (groups - 1))
  }

  function ScalarPart(u: nat, start: nat, count: nat): (r: seq<Insn>)
    ensures |r| == 4 * count
  {
    if count == 0 then [] else ScalarPart(u, start, count - 1) + ScalarGroup(u + 4 * (count - 1), start + count - 1)
  }

  // Everything up to `count` elements of the remainder.
  function UpTo(size: nat, count: nat): seq<Insn> {
    VectorPart(size / CHUNK * 4) + ScalarPart(size / CHUNK * 16, size / CHUNK * CHUNK, count)
  }

  function MultiplyProgram(size: nat): seq<Insn> { UpTo(size, size % CHUNK) + [Ret] }

  // The program, one group at a time.
  lemma ProgramStarts(size: nat)
    ensures VectorPart(0) == [] && UpTo(size, 0) == VectorPart(size / CHUNK * 4)
    ensures MultiplyProgram(size) == UpTo(size, size % CHUNK) + [Ret]
  {}

  lemma NextVectorGroup(n: nat)
    ensures VectorPart(n + 1) == VectorPart(n) + VectorGroup(|VectorPart(n)|, 8 * n)
  {
    hide VectorGroup;
  }

  lemma NextScalarGroup(size: nat, n: nat)
    ensures UpTo(size, n + 1) == UpTo(size, n) + ScalarGroup(|UpTo(size, n)|, size / CHUNK * CHUNK + n)
  {
    hide ScalarGroup;
  }

  // ----- the compiler, with its cache -----

  class VectorizedOps {
    var cache: map<nat, seq<Insn>>

    ghost predicate Valid()
      reads this
    {
      forall size :: size in cache ==> cache[size] == MultiplyProgram(size)
    }

    constructor ()
      ensures Valid() && cache == map[]
    {
      cache := map[];
    }

    method CompileMultiply(size: nat) returns (code: seq<Insn>)
      requires Valid()
      modifies this
      ensures Valid() && code == MultiplyProgram(size) && cache == old(cache)[size := code]
    {
      if size in cache {
        assert cache == cache[size := cache[size]];
        return cache[size];
      }
      ProgramStarts(size);
      hide VectorGroup, ScalarGroup, VectorPart, UpTo, MultiplyProgram;
      code := [];
      var chunks := size / CHUNK;
      for chunk := 0 to chunks
        invariant code == VectorPart(4 * chunk) && cache == old(cache)
      {
        for v := 0 to 4
          invariant code == VectorPart(4 * chunk + v) && cache == old(cache)
        {
          NextVectorGroup(4 * chunk + v);
          var idx := chunk * CHUNK + 8 * v;
          if idx + 8 <= size { code := code + VectorGroup(|code|, idx); }
        }
      }
      var start := chunks * CHUNK;
      for i := start to size
        invariant code == UpTo(size, i - start) && cache == old(cache)
      {
        NextScalarGroup(size, i - start);
        code := code + ScalarGroup(|code|, i);
      }
      assert size - start == size % CHUNK;
      code := code + [Ret];
      cache := cache[size := code];
    }
  }

  // ----- what the program does -----

  // The buffers hold `size` elements. They may be the same list.
  ghost predicate Buffers<F>(args: seq<int>, mem: map<int, seq<F>>, size: nat) {
    |args| >= 3 && forall a :: 0 <= a < 3 ==> args[a] in mem && |mem[args[a]]| >= size
  }

  // The output once its first n elements are computed.
  function Multiplied<F>(mul: (F, F) -> F, args: seq<int>, mem: map<int, seq<F>>, n: nat): (r: seq<F>)
    requires Buffers(args, mem, n)
    ensures |r| == |mem[args[2]]|
    ensures forall i :: 0 <= i < n ==> r[i] == mul(mem[args[0]][i], mem[args[1]][i])
    ensures forall i :: n <= i < |r| ==> r[i] == mem[args[2]][i]
  {
    seq(|mem[args[2]]|, i requires 0 <= i < |mem[args[2]]| =>
      if i < n then mul(mem[args[0]][i], mem[args[1]][i]) else mem[args[2]][i])
  }

  function WritesFrom(h: int, from: nat, n: nat): (r: seq<(int, nat)>)
    ensures |r| == n && forall k :: 0 <= k < n ==> r[k] == (h, from + k)
  {
    seq(n, k => (h, from + k))
  }

  // The first n elements are done, and nothing else was written.
  ghost predicate DoneTo<F>(mul: (F, F) -> F, args: seq<int>, mem: map<int, seq<F>>, size: nat, s: State<F>, n: nat)
    requires Buffers(args, mem, size) && n <= size
  {
    s.mem == mem[args[2] := Multiplied(mul, args, mem, n)] && s.writes == WritesFrom(args[2], 0, n)
  }

  lemma {:induction false} Stores<F>(s: State<F>, h: int, offset: nat, xs: seq<F>, k: nat)
    requires k <= |xs| && h in s.mem && offset + k <= |s.mem[h]|
    ensures StoreAll(s, h, offset, xs, k) ==
      Some(State(s.env, s.mem[h := s.mem[h][..offset] + xs[..k] + s.mem[h][offset + k..]],
        s.writes + WritesFrom(h, offset, k)))
  {
    var l := s.mem[h];
    if k == 0 {
      assert l[..offset] + xs[..0] + l[offset..] == l;
      assert s.mem[h := l] == s.mem;
      assert s.writes + WritesFrom(h, offset, 0) == s.writes;
    } else {
      Stores(s, h, offset, xs, k - 1);
      var before := l[..offset] + xs[..k - 1] + l[offset + k - 1..];
      var i := offset + k - 1;
      assert before[i := xs[k - 1]] == l[..offset] + xs[..k] + l[offset + k..];
      assert (s.writes + WritesFrom(h, offset, k - 1)) + [(h, i)] == s.writes + WritesFrom(h, offset, k);
      assert s.mem[h := before][h := before[i := xs[k - 1]]] == s.mem[h := before[i := xs[k - 1]]];
    }
  }

  // What remains to be read is still what it was.
  lemma StillThere<F>(mul: (F, F) -> F, args: seq<int>, mem: map<int, seq<F>>, size: nat, s: State<F>, n: nat, a: nat)
    requires Buffers(args, mem, size) && n <= size && DoneTo(mul, args, mem, size, s, n) && a < 3
    ensures args[a] in s.mem && |s.mem[args[a]]| == |mem[args[a]]|
    ensures forall i :: n <= i < |mem[args[a]]| ==> s.mem[args[a]][i] == mem[args[a]][i]
  {}

  // One group has run, on w elements from n.
  lemma Advances<F>(mul: (F, F) -> F, args: seq<int>, mem: map<int, seq<F>>, size: nat, s: State<F>,
                    n: nat, w: nat, xs: seq<F>)
    requires Buffers(args, mem, size) && n + w <= size && DoneTo(mul, args, mem, size, s, n) && |xs| == w
    requires forall k :: 0 <= k < w ==> xs[k] == mul(mem[args[0]][n + k], mem[args[1]][n + k])
    ensures StoreAll(s, args[2], n, xs, w).Some?
    ensures StoreAll(s, args[2], n, xs, w).value.env == s.env
    ensures DoneTo(mul, args, mem, size, StoreAll(s, args[2], n, xs, w).value, n + w)
  {
    hide StoreAll, Multiplied, WritesFrom;
    var h := args[2];
    StillThere(mul, args, mem, size, s, n, 2);
    Stores(s, h, n, xs, w);
    assert xs[..w] == xs;
    MultipliedMore(mul, args, mem, n, w, xs);
    WritesJoin(h, n, w);
  }

  lemma MultipliedMore<F>(mul: (F, F) -> F, args: seq<int>, mem: map<int, seq<F>>, n: nat, w: nat, xs: seq<F>)
    requires Buffers(args, mem, n + w) && |xs| == w
    requires forall k :: 0 <= k < w ==> xs[k] == mul(mem[args[0]][n + k], mem[args[1]][n + k])
    ensures var l := Multiplied(mul, args, mem, n); l[..n] + xs + l[n + w..] == Multiplied(mul, args, mem, n + w)
  {
    var l, m := Multiplied(mul, args, mem, n), Multiplied(mul, args, mem, n + w);
    hide Multiplied;
    var r := l[..n] + xs + l[n + w..];
    forall i | 0 <= i < |m| ensures r[i] == m[i] {
      if n <= i < n + w { assert r[i] == xs[i - n]; }
    }
  }

  lemma WritesJoin(h: int, n: nat, w: nat)
    ensures WritesFrom(h, 0, n) + WritesFrom(h, n, w) == WritesFrom(h, 0, n + w)
  {}

  function Four<F>(mul: (F, F) -> F, args: seq<int>, g: seq<Insn>, s: State<F>): Option<State<F>>
    requires |g| == 4
  {
    match Exec(mul, args, g[0], s)
    case None => None
    case Some(s1) =>
      match Exec(mul, args, g[1], s1)
      case None => None
      case Some(s2) =>
        match Exec(mul, args, g[2], s2)
        case None => None
        case Some(s3) => Exec(mul, args, g[3], s3)
  }

  lemma FourSteps<F>(mul: (F, F) -> F, args: seq<int>, g: seq<Insn>,
                     s: State<F>, s1: State<F>, s2: State<F>, s3: State<F>)
    requires |g| == 4 && Exec(mul, args, g[0], s) == Some(s1) && Exec(mul, args, g[1], s1) == Some(s2)
    requires Exec(mul, args, g[2], s2) == Some(s3)
    ensures Four(mul, args, g, s) == Exec(mul, args, g[3], s3)
  {
    hide Exec;
  }

  lemma SliceInside<F>(s: seq<F>, n: nat)
    requires n + 8 <= |s|
    ensures Slice(s, n, n + 8) == s[n..n + 8]
  {}

  lemma VectorStep<F>(mul: (F, F) -> F, args: seq<int>, mem: map<int, seq<F>>, size: nat, s: State<F>, n: nat, u: nat)
    requires Buffers(args, mem, size) && n + 8 <= size && DoneTo(mul, args, mem, size, s, n)
    ensures Four(mul, args, VectorGroup(u, n), s).Some?
    ensures DoneTo(mul, args, mem, size, Four(mul, args, VectorGroup(u, n), s).value, n + 8)
  {
    hide StoreAll, DoneTo, Slice, Products, Four, Multiplied, WritesFrom;
    StillThere(mul, args, mem, size, s, n, 0);
    StillThere(mul, args, mem, size, s, n, 1);
    SliceInside(s.mem[args[0]], n);
    SliceInside(s.mem[args[1]], n);
    var a, b := Slice(s.mem[args[0]], n, n + 8), Slice(s.mem[args[1]], n, n + 8);
    var xs := Products(mul, a, b);
    var s1 := s.(env := s.env[u := Vector(a)]);
    var s2 := s1.(env := s1.env[u + 1 := Vector(b)]);
    var s3 := s2.(env := s2.env[u + 2 := Vector(xs)]);
    SameDone(mul, args, mem, size, s, s3, n);
    Advances(mul, args, mem, size, s3, n, 8, xs);
    FourSteps(mul, args, VectorGroup(u, n), s, s1, s2, s3);
  }

  lemma SameDone<F>(mul: (F, F) -> F, args: seq<int>, mem: map<int, seq<F>>, size: nat,
                    s: State<F>, t: State<F>, n: nat)
    requires Buffers(args, mem, size) && n <= size && t.mem == s.mem && t.writes == s.writes
    ensures DoneTo(mul, args, mem, size, s, n) <==> DoneTo(mul, args, mem, size, t, n)
  {}

  lemma ScalarStep<F>(mul: (F, F) -> F, args: seq<int>, mem: map<int, seq<F>>, size: nat, s: State<F>, n: nat, u: nat)
    requires Buffers(args, mem, size) && n + 1 <= size && DoneTo(mul, args, mem, size, s, n)
    ensures Four(mul, args, ScalarGroup(u, n), s).Some?
    ensures DoneTo(mul, args, mem, size, Four(mul, args, ScalarGroup(u, n), s).value, n + 1)
  {
    StillThere(mul, args, mem, size, s, n, 0);
    StillThere(mul, args, mem, size, s, n, 1);
    var a, b := s.mem[args[0]][n], s.mem[args[1]][n];
    var s1 := s.(env := s.env[u := Scalar(a)]);
    var s2 := s1.(env := s1.env[u + 1 := Scalar(b)]);
    var s3 := s2.(env := s2.env[u + 2 := Scalar(mul(a, b))]);
    SameDone(mul, args, mem, size, s, s3, n);
    Advances(mul, args, mem, size, s3, n, 1, [mul(a, b)]);
    hide StoreAll, DoneTo, Four;
    FourSteps(mul, args, ScalarGroup(u, n), s, s1, s2, s3);
  }

  lemma RunOne<F>(mul: (F, F) -> F, args: seq<int>, code: seq<Insn>, s: State<F>, k: nat)
    requires k < |code|
    ensures Run(mul, args, code, s, k + 1) ==
      match Run(mul, args, code, s, k) case Some(t) => Exec(mul, args, code[k], t) case None => None
  {}

  lemma RunFour<F>(mul: (F, F) -> F, args: seq<int>, code: seq<Insn>, s: State<F>, k: nat, t: State<F>)
    requires k + 4 <= |code| && Run(mul, args, code, s, k) == Some(t)
    ensures Run(mul, args, code, s, k + 4) == Four(mul, args, code[k..k + 4], t)
  {
    hide Exec, Run;
    var g := code[k..k + 4];
    assert g[0] == code[k] && g[1] == code[k + 1] && g[2] == code[k + 2] && g[3] == code[k + 3];
    RunOne(mul, args, code, s, k);
    RunOne(mul, args, code, s, k + 1);
    RunOne(mul, args, code, s, k + 2);
    RunOne(mul, args, code, s, k + 3);
  }

  lemma {:induction false} VectorPartAt(groups: nat, g: nat)
    requires g < groups
    ensures VectorPart(groups)[4 * g..4 * g + 4] == VectorGroup(4 * g, 8 * g)
  {
    hide VectorGroup;
    if g < groups - 1 { VectorPartAt(groups - 1, g); }
  }

  lemma {:induction false} ScalarPartAt(u: nat, start: nat, count: nat, j: nat)
    requires j < count
    ensures ScalarPart(u, start, count)[4 * j..4 * j + 4] == ScalarGroup(u + 4 * j, start + j)
  {
    hide ScalarGroup;
    if j < count - 1 { ScalarPartAt(u, start, count - 1, j); }
  }

  // Where each group stands in the program.
  lemma ProgramVectors(size: nat, g: nat)
    requires g < size / CHUNK * 4
    ensures 4 * g + 4 <= |MultiplyProgram(size)| && 8 * g + 8 <= size
    ensures MultiplyProgram(size)[4 * g..4 * g + 4] == VectorGroup(4 * g, 8 * g)
  {
    VectorPartAt(size / CHUNK * 4, g);
    hide VectorPart, ScalarPart, VectorGroup;
  }

  lemma ProgramScalars(size: nat, j: nat)
    requires j < size % CHUNK
    ensures var k := size / CHUNK * 16 + 4 * j;
      k + 4 <= |MultiplyProgram(size)| && MultiplyProgram(size)[k..k + 4] == ScalarGroup(k, size / CHUNK * CHUNK + j)
  {
    var u, start, count := size / CHUNK * 16, size / CHUNK * CHUNK, size % CHUNK;
    var before, part := VectorPart(size / CHUNK * 4), ScalarPart(u, start, count);
    ScalarPartAt(u, start, count, j);
    hide VectorPart, ScalarPart, ScalarGroup;
    SliceOfMiddle(before, part, [Ret], 4 * j, 4);
  }

  lemma SliceOfMiddle<T>(a: seq<T>, b: seq<T>, c: seq<T>, k: nat, w: nat)
    requires k + w <= |b|
    ensures (a + b + c)[|a| + k..|a| + k + w] == b[k..k + w]
  {}

  lemma ProgramEnds(size: nat)
    ensures |MultiplyProgram(size)| == size / CHUNK * 16 + 4 * (size % CHUNK) + 1
    ensures MultiplyProgram(size)[|MultiplyProgram(size)| - 1] == Ret
  {}

  lemma {:induction false} VectorsRun<F>(mul: (F, F) -> F, args: seq<int>, mem: map<int, seq<F>>, size: nat, g: nat)
    requires Buffers(args, mem, size) && g <= size / CHUNK * 4
    ensures 4 * g <= |MultiplyProgram(size)| && 8 * g <= size
    ensures var r := Run(mul, args, MultiplyProgram(size), State(map[], mem, []), 4 * g);
      r.Some? && DoneTo(mul, args, mem, size, r.value, 8 * g)
  {
    hide MultiplyProgram, DoneTo, Four, Buffers, VectorGroup, Exec;
    if g == 0 {
      NothingDone(mul, args, mem, size);
    } else {
      VectorsRun(mul, args, mem, size, g - 1);
      hide Run;
      ProgramVectors(size, g - 1);
      var code, s := MultiplyProgram(size), State(map[], mem, []);
      var t := Run(mul, args, code, s, 4 * (g - 1)).value;
      RunFour(mul, args, code, s, 4 * (g - 1), t);
      VectorStep(mul, args, mem, size, t, 8 * (g - 1), 4 * (g - 1));
    }
  }

  lemma NothingDone<F>(mul: (F, F) -> F, args: seq<int>, mem: map<int, seq<F>>, size: nat)
    requires Buffers(args, mem, size)
    ensures DoneTo(mul, args, mem, size, State(map[], mem, []), 0)
  {
    assert Multiplied(mul, args, mem, 0) == mem[args[2]];
  }

  lemma {:induction false} ScalarsRun<F>(mul: (F, F) -> F, args: seq<int>, mem: map<int, seq<F>>, size: nat, j: nat)
    requires Buffers(args, mem, size) && j <= size % CHUNK
    ensures size / CHUNK * 16 + 4 * j <= |MultiplyProgram(size)| && size / CHUNK * CHUNK + j <= size
    ensures var r := Run(mul, args, MultiplyProgram(size), State(map[], mem, []), size / CHUNK * 16 + 4 * j);
      r.Some? && DoneTo(mul, args, mem, size, r.value, size / CHUNK * CHUNK + j)
  {
    hide MultiplyProgram, DoneTo, Four, Buffers, ScalarGroup, Exec, Run;
    if j == 0 {
      VectorsRun(mul, args, mem, size, size / CHUNK * 4);
    } else {
      ScalarsRun(mul, args, mem, size, j - 1);
      ProgramScalars(size, j - 1);
      var code, s, k := MultiplyProgram(size), State(map[], mem, []), size / CHUNK * 16 + 4 * (j - 1);
      var t := Run(mul, args, code, s, k).value;
      RunFour(mul, args, code, s, k, t);
      ScalarStep(mul, args, mem, size, t, size / CHUNK * CHUNK + j - 1, k);
    }
  }

  // Main result: for every size and every multiplication, the program stores each product
  // once, in order, at its own index, and writes nothing else.
  lemma MultipliesEachOnce<F>(mul: (F, F) -> F, args: seq<int>, mem: map<int, seq<F>>, size: nat)
    requires Buffers(args, mem, size)
    ensures var r := Run(mul, args, MultiplyProgram(size), State(map[], mem, []), |MultiplyProgram(size)|);
      r.Some? && r.value.writes == WritesFrom(args[2], 0, size) && r.value.mem.Keys == mem.Keys &&
      (forall h :: h in mem && h != args[2] ==> r.value.mem[h] == mem[h]) &&
      r.value.mem[args[2]] == Multiplied(mul, args, mem, size)
  {
    hide MultiplyProgram, Run, Multiplied, WritesFrom;
    ScalarsRun(mul, args, mem, size, size % CHUNK);
    ProgramEnds(size);
    RunOne(mul, args, MultiplyProgram(size), State(map[], mem, []), |MultiplyProgram(size)| - 1);
  }
}

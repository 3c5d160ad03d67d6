/** The instructions by which functions of several arguments are applied: a function that
    gets too few arguments becomes a closure that remembers them; one that gets too many
    leaves the rest for its result. */
module Currying {

  /** A word of the program. */
  datatype CodeWord = Opcode(op: Op) | Operand(n: int)
  datatype Op = APPLY | APPTERM | RETURN | RESTART | GRAB | PUSH_RETADDR | OTHER

  datatype Value = Num(n: int) | Block(addr: int) | Code(pc: int)

  /** Closures, by address: a code pointer, and what the code finds in its environment. */
  type Heap = map<int, seq<Value>>

  /** The registers; the top of the stack comes first. */
  datatype State = State(pc: int, stack: seq<Value>, accu: Value, env: Value, extraArgs: int, heap: Heap)

  predicate IsClosure(h: Heap, v: Value) {
    v.Block? && v.addr in h && |h[v.addr]| > 0 && h[v.addr][0].Code?
  }

  function CodeVal(h: Heap, v: Value): int
    requires IsClosure(h, v)
  {
    h[v.addr][0].pc
  }

  function Frame(ret: int, env: Value, extraArgs: int): seq<Value> {
    [Code(ret), env, Num(extraArgs)]
  }

  predicate HasFrame(stack: seq<Value>) {
    |stack| >= 3 && stack[0].Code? && stack[2].Num?
  }

  // What the instructions do. Each is given the state in which its operands have been fetched.

  /** Goes on at the closure in the accumulator. */
  function Enter(s: State, extraArgs: int): State
    requires IsClosure(s.heap, s.accu)
  {
    s.(pc := CodeVal(s.heap, s.accu), env := s.accu, extraArgs := extraArgs)
  }

  /** Goes back to the caller. */
  function PopFrame(s: State): State
    requires HasFrame(s.stack)
  {
    s.(pc := s.stack[0].pc, env := s.stack[1], extraArgs := s.stack[2].n, stack := s.stack[3..])
  }

  predicate CanReturn(s: State, n: nat) {
    n <= |s.stack| && if s.extraArgs > 0 then IsClosure(s.heap, s.accu) else HasFrame(s.stack[n..])
  }

  function DoReturn(s: State, n: nat): State
    requires CanReturn(s, n)
  {
    var t := s.(stack := s.stack[n..]);
    if t.extraArgs > 0 then Enter(t, t.extraArgs - 1) else PopFrame(t)
  }

  predicate CanAppterm(s: State, nargs: nat, slot: nat) {
    0 < nargs <= slot <= |s.stack| && IsClosure(s.heap, s.accu)
  }

  function DoAppterm(s: State, nargs: nat, slot: nat): State
    requires CanAppterm(s, nargs, slot)
  {
    Enter(s.(stack := s.stack[..nargs] + s.stack[slot..]), s.extraArgs + nargs - 1)
  }

  predicate CanRestart(s: State) {
    s.env.Block? && s.env.addr in s.heap && |s.heap[s.env.addr]| >= 2
  }

  function DoRestart(s: State): State
    requires CanRestart(s)
  {
    var block := s.heap[s.env.addr];
    s.(stack := block[2..] + s.stack, env := block[1], extraArgs := s.extraArgs + |block| - 2)
  }

  predicate CanGrab(s: State, required: int) {
    s.extraArgs >= required || (s.extraArgs >= 0 && 1 + s.extraArgs <= |s.stack| && HasFrame(s.stack[1 + s.extraArgs..]))
  }

  /** With enough arguments the function goes on; with too few it returns a closure that
      starts at the RESTART before it. */
  function DoGrab(s: State, required: int, addr: int): State
    requires CanGrab(s, required)
  {
    if s.extraArgs >= required then s.(extraArgs := s.extraArgs - required)
    else
      var n := 1 + s.extraArgs;
      PopFrame(s.(accu := Block(addr), heap := s.heap[addr := [Code(s.pc - 3), s.env] + s.stack[..n]], stack := s.stack[n..]))
  }

  /** The interpreter. */
  class Interp {
    const code: seq<CodeWord>
    var pc: int
    var sp: seq<Value>
    var accu: Value
    var env: Value
    var extraArgs: int
    var heap: Heap

    constructor (code: seq<CodeWord>, s: State)
      ensures this.code == code && St() == s
    {
      this.code, pc, sp, accu, env, extraArgs, heap := code, s.pc, s.stack, s.accu, s.env, s.extraArgs, s.heap;
    }

    function St(): State
      reads this
    {
      State(pc, sp, accu, env, extraArgs, heap)
    }

    predicate Fetched(n: nat)
      reads this
    {
      0 <= pc && pc + n <= |code| && (n > 0 ==> code[pc].Operand?) && (n > 1 ==> code[pc + 1].Operand?)
    }

    method PushRetaddr()
      requires Fetched(1)
      modifies this
      ensures St() == old(St()).(pc := old(pc) + 1, stack := Frame(old(pc) + code[old(pc)].n, old(env), old(extraArgs)) + old(sp))
    {
      sp := [Code(pc + code[pc].n), env, Num(extraArgs)] + sp;
      pc := pc + 1;
    }

    method Apply()
      requires Fetched(1) && IsClosure(heap, accu)
      modifies this
      ensures St() == Enter(old(St()), code[old(pc)].n - 1)
    {
      extraArgs := code[pc].n - 1;
      pc := CodeVal(heap, accu);
      env := accu;
    }

    method Appterm()
      requires Fetched(2) && 0 <= code[pc].n && 0 <= code[pc + 1].n && CanAppterm(St(), code[pc].n, code[pc + 1].n)
      modifies this
      ensures St() == DoAppterm(old(St()), code[old(pc)].n, code[old(pc) + 1].n)
    {
      var nargs := code[pc].n;
      pc := pc + 1;
      Slide(nargs, code[pc].n);
      pc := CodeVal(heap, accu);
      env := accu;
      extraArgs := extraArgs + nargs - 1;
    }

    /** Slides the `nargs` values on top of the stack over the rest of the frame of size
        `slotsize`, from the last one on, since the two places may overlap. */
    method Slide(nargs: int, slotsize: int)
      requires 0 < nargs <= slotsize <= |sp|
      modifies this`sp
      ensures sp == old(sp[..nargs]) + old(sp[slotsize..])
    {
      var newsp, i := slotsize - nargs, nargs - 1;
      ghost var sp0 := sp;
      while i >= 0
        modifies this`sp
        invariant -1 <= i < nargs && |sp| == |sp0| && sp[..i + 1] == sp0[..i + 1]
        invariant sp[newsp + i + 1..slotsize] == sp0[i + 1..nargs] && sp[slotsize..] == sp0[slotsize..]
      {
        sp := sp[newsp + i := sp[i]];
        i := i - 1;
      }
      sp := sp[newsp..];
    }

    method Return()
      requires Fetched(1) && 0 <= code[pc].n && CanReturn(St().(pc := pc + 1), code[pc].n)
      modifies this
      ensures St() == DoReturn(old(St()).(pc := old(pc) + 1), code[old(pc)].n)
    {
      sp := sp[code[pc].n..];
      pc := pc + 1;
      if extraArgs > 0 {
        extraArgs := extraArgs - 1;
        pc := CodeVal(heap, accu);
        env := accu;
      } else {
        pc := sp[0].pc;
        env := sp[1];
        extraArgs := sp[2].n;
        sp := sp[3..];
      }
    }

    method Restart()
      requires CanRestart(St())
      modifies this
      ensures St() == DoRestart(old(St()))
    {
      var block := heap[env.addr];
      var numArgs, i := |block| - 2, 0;
      var args: seq<Value> := [];
      while i < numArgs
        invariant 0 <= i <= numArgs && args == block[2..2 + i]
      {
        args := args + [block[i + 2]];
        i := i + 1;
      }
      sp := args + sp;
      env := block[1];
      extraArgs := extraArgs + numArgs;
    }

    method Grab() returns (ghost addr: int)
      requires Fetched(1) && CanGrab(St().(pc := pc + 1), code[pc].n)
      modifies this
      ensures addr !in old(heap) && St() == DoGrab(old(St()).(pc := old(pc) + 1), code[old(pc)].n, addr)
    {
      var required := code[pc].n;
      pc := pc + 1;
      var a := FreshAddress(heap.Keys);
      addr := a;
      if extraArgs >= required {
        extraArgs := extraArgs - required;
      } else {
        var numArgs := 1 + extraArgs;
        var block, i := [Code(pc - 3), env], 0;
        while i < numArgs
          invariant 0 <= i <= numArgs && block == [Code(pc - 3), env] + sp[..i]
        {
          block := block + [sp[i]];
          i := i + 1;
        }
        heap := heap[a := block];
        accu := Block(a);
        sp := sp[numArgs..];
        pc := sp[0].pc;
        env := sp[1];
        extraArgs := sp[2].n;
        sp := sp[3..];
      }
    }
  }

  /** The allocator: some address not in use. */
  method FreshAddress(used: set<int>) returns (a: int)
    ensures a !in used
  {
    a := *;
    if a in used {
      var keys := used;
      a := 0;
      while keys != {}
        invariant forall k :: k in used && k !in keys ==> k < a
        decreases |keys|
      {
        assert (forall k :: k !in keys) ==> keys == {};
        var k :| k in keys;
        keys := keys - {k};
        if k >= a {
          a := k + 1;
        }
      }
    }
  }

  // Applications.

  /** `c` is the closure of a function of `n` + 1 arguments. */
  ghost predicate Function(code: seq<CodeWord>, h: Heap, c: Value, n: int) {
    && IsClosure(h, c) && n >= 1
    && var l := CodeVal(h, c);
    1 <= l && l + 1 < |code| && code[l - 1] == Opcode(RESTART) && code[l] == Opcode(GRAB) && code[l + 1] == Operand(n)
  }

  /** `f` is the function `c`, already given the arguments `pre`. */
  ghost predicate Given(h: Heap, f: Value, c: Value, pre: seq<Value>)
    requires IsClosure(h, c)
  {
    if pre == [] then f == c else f.Block? && f.addr in h && h[f.addr] == [Code(CodeVal(h, c) - 1), c] + pre
  }

  /** Executes the RESTART or GRAB that comes next; `addr` is where a closure is allocated. */
  ghost function Exec(code: seq<CodeWord>, s: State, addr: int): State {
    if 0 <= s.pc < |code| && code[s.pc] == Opcode(RESTART) && CanRestart(s.(pc := s.pc + 1)) then DoRestart(s.(pc := s.pc + 1))
    else if 0 <= s.pc && s.pc + 1 < |code| && code[s.pc] == Opcode(GRAB) && code[s.pc + 1].Operand?
      && CanGrab(s.(pc := s.pc + 2), code[s.pc + 1].n)
    then DoGrab(s.(pc := s.pc + 2), code[s.pc + 1].n, addr)
    else s
  }

  /** From the entry of a function to its body, or back to the caller. */
  ghost function Prologue(code: seq<CodeWord>, s: State, addr: int): State {
    if 0 <= s.pc < |code| && code[s.pc] == Opcode(RESTART) then Exec(code, Exec(code, s, addr), addr) else Exec(code, s, addr)
  }

  /** Applies the closure in the accumulator to `args`: a frame is pushed, to return to `ret`,
      then the arguments, and the closure is entered. */
  ghost function Call(code: seq<CodeWord>, s: State, args: seq<Value>, ret: int, addr: int): State {
    if IsClosure(s.heap, s.accu)
    then Prologue(code, Enter(s.(stack := args + Frame(ret, s.env, s.extraArgs) + s.stack), |args| - 1), addr)
    else s
  }

  /** Several applications, each to the result of the one before. */
  ghost function CallAll(code: seq<CodeWord>, s: State, groups: seq<seq<Value>>, rets: seq<int>, addrs: seq<int>): State
    requires |groups| == |rets| == |addrs|
    decreases |groups|
  {
    if groups == [] then s else CallAll(code, Call(code, s, groups[0], rets[0], addrs[0]), groups[1..], rets[1..], addrs[1..])
  }

  function Concat(groups: seq<seq<Value>>): seq<Value> {
    if groups == [] then [] else groups[0] + Concat(groups[1..])
  }

  /** The body of `c` has been entered with the arguments `all`, to return to `ret` for the caller `s`. */
  ghost predicate InBody(r: State, s: State, c: Value, n: int, all: seq<Value>, ret: int)
    requires IsClosure(s.heap, c)
  {
    && r.pc == CodeVal(s.heap, c) + 2 && r.env == c && r.extraArgs == |all| - n - 1
    && r.stack == all + Frame(ret, s.env, s.extraArgs) + s.stack
  }

  /** The caller goes on with a closure that is `c` given `all`; nothing else has changed. */
  ghost predicate Returned(r: State, s: State, c: Value, all: seq<Value>, ret: int)
    requires IsClosure(s.heap, c)
  {
    && r.pc == ret && r.env == s.env && r.extraArgs == s.extraArgs && r.stack == s.stack
    && (forall a :: a in s.heap ==> a in r.heap && r.heap[a] == s.heap[a])
    && IsClosure(r.heap, c) && CodeVal(r.heap, c) == CodeVal(s.heap, c) && Given(r.heap, r.accu, c, all)
  }

  /** At the GRAB, whichever way it was reached. */
  lemma AtGrab(code: seq<CodeWord>, s: State, c: Value, n: int, all: seq<Value>, frame: seq<Value>, addr: int)
    requires Function(code, s.heap, c, n) && addr !in s.heap && |all| > 0 && HasFrame(frame)
    requires s.pc == CodeVal(s.heap, c) && s.env == c && s.extraArgs == |all| - 1 && s.stack == all + frame
    ensures var r := Exec(code, s, addr);
      if |all| <= n
      then r == PopFrame(s.(accu := Block(addr), heap := s.heap[addr := [Code(s.pc - 1), c] + all], stack := frame))
      else r == s.(pc := s.pc + 2, extraArgs := |all| - n - 1)
  {
    var s2 := s.(pc := s.pc + 2);
    assert s2.stack[..|all|] == all && s2.stack[|all|..] == frame;
  }

  /** A closure that has been given arguments puts them back on the stack. */
  lemma AtRestart(code: seq<CodeWord>, s: State, c: Value, n: int, pre: seq<Value>, rest: seq<Value>, addr: int)
    requires Function(code, s.heap, c, n) && pre != [] && s.env.Block? && s.env.addr in s.heap
    requires s.heap[s.env.addr] == [Code(CodeVal(s.heap, c) - 1), c] + pre && s.pc == CodeVal(s.heap, c) - 1
    requires s.stack == rest
    ensures Exec(code, s, addr) == s.(pc := s.pc + 1, stack := pre + rest, env := c, extraArgs := s.extraArgs + |pre|)
  {
    assert s.heap[s.env.addr][2..] == pre;
  }

  /** One application: with too few arguments a closure is returned that has been given them
      too; otherwise the body is entered with all of them. */
  lemma CallOnce(code: seq<CodeWord>, s: State, c: Value, n: int, pre: seq<Value>, args: seq<Value>, ret: int, addr: int)
    requires Function(code, s.heap, c, n) && Given(s.heap, s.accu, c, pre) && |pre| <= n && |args| > 0 && addr !in s.heap
    ensures var r := Call(code, s, args, ret, addr);
      if |pre + args| <= n then Returned(r, s, c, pre + args, ret) && Function(code, r.heap, c, n) && r.heap.Keys == s.heap.Keys + {addr}
      else InBody(r, s, c, n, pre + args, ret)
  {
    hide Exec;
    var frame := Frame(ret, s.env, s.extraArgs) + s.stack;
    var e := Enter(s.(stack := args + Frame(ret, s.env, s.extraArgs) + s.stack), |args| - 1);
    assert args + Frame(ret, s.env, s.extraArgs) + s.stack == args + frame;
    assert frame[3..] == s.stack;
    var g := e;
    if pre != [] {
      AtRestart(code, e, c, n, pre, args + frame, addr);
      g := Exec(code, e, addr);
      assert pre + (args + frame) == (pre + args) + frame;
    } else {
      assert pre + args == args;
    }
    AtGrab(code, g, c, n, pre + args, frame, addr);
    assert (pre + args) + frame == (pre + args) + Frame(ret, s.env, s.extraArgs) + s.stack;
  }

  ghost predicate FreshAll(addrs: seq<int>, h: Heap) {
    && (forall k :: 0 <= k < |addrs| ==> addrs[k] !in h)
    && (forall j, k :: 0 <= j < k < |addrs| ==> addrs[j] != addrs[k])
  }

  ghost predicate NoneEmpty(groups: seq<seq<Value>>) {
    forall k :: 0 <= k < |groups| ==> |groups[k]| > 0
  }

  /** Applying a function to groups of arguments, one after the other, enters its body as
      applying it to all of them at once does; or, when they are too few, gives a closure
      that has been given all of them. */
  lemma {:induction false} CallGroups(code: seq<CodeWord>, s: State, c: Value, n: int, pre: seq<Value>, groups: seq<seq<Value>>, rets: seq<int>, addrs: seq<int>)
    requires Function(code, s.heap, c, n) && Given(s.heap, s.accu, c, pre) && NoneEmpty(groups)
    requires 0 < |groups| == |rets| == |addrs| && FreshAll(addrs, s.heap)
    requires |pre| + |Concat(groups[..|groups| - 1])| <= n
    ensures var r := CallAll(code, s, groups, rets, addrs);
      var all := pre + Concat(groups);
      if |all| <= n then Returned(r, s, c, all, rets[|rets| - 1]) else InBody(r, s, c, n, all, rets[|rets| - 1])
    decreases |groups|
  {
    hide Call, Returned, InBody, Function, Given;
    var first, rest := groups[0], groups[1..];
    FunctionIsClosure(code, s.heap, c, n);
    CallOnce(code, s, c, n, pre, first, rets[0], addrs[0]);
    assert Concat(groups) == first + Concat(rest);
    if |groups| == 1 {
      assert Concat(rest) == [];
      assert pre + Concat(groups) == pre + first;
    } else {
      assert groups[..|groups| - 1] == [first] + rest[..|rest| - 1];
      assert Concat(groups[..|groups| - 1]) == first + Concat(rest[..|rest| - 1]);
      var s1 := Call(code, s, first, rets[0], addrs[0]);
      ReturnedFacts(s1, s, c, pre + first, rets[0]);
      assert FreshAll(addrs[1..], s1.heap);
      CallGroups(code, s1, c, n, pre + first, rest, rets[1..], addrs[1..]);
      assert pre + Concat(groups) == pre + first + Concat(rest);
      AfterReturn(s1, s, c, n, pre + first, rets[0]);
    }
  }

  lemma FunctionIsClosure(code: seq<CodeWord>, h: Heap, c: Value, n: int)
    requires Function(code, h, c, n)
    ensures IsClosure(h, c)
  {
  }

  lemma ReturnedFacts(r: State, s: State, c: Value, all: seq<Value>, ret: int)
    requires IsClosure(s.heap, c) && Returned(r, s, c, all, ret)
    ensures IsClosure(r.heap, c) && Given(r.heap, r.accu, c, all)
  {
  }

  /** What follows a return is the same for the caller as before. */
  lemma AfterReturn(s1: State, s: State, c: Value, n: int, all: seq<Value>, ret: int)
    requires IsClosure(s.heap, c) && Returned(s1, s, c, all, ret) && IsClosure(s1.heap, c)
    ensures forall r, all', ret' :: InBody(r, s1, c, n, all', ret') ==> InBody(r, s, c, n, all', ret')
    ensures forall r, all', ret' :: Returned(r, s1, c, all', ret') ==> Returned(r, s, c, all', ret')
  {
  }

  /** Currying is transparent: however the arguments are split, the body is entered at the same
      place, with the same environment, stack and number of extra arguments. */
  lemma CurryingIsTransparent(code: seq<CodeWord>, s: State, n: int, groups: seq<seq<Value>>, rets: seq<int>, addrs: seq<int>)
    requires Function(code, s.heap, s.accu, n) && NoneEmpty(groups)
    requires 0 < |groups| == |rets| == |addrs| && FreshAll(addrs, s.heap)
    requires |Concat(groups[..|groups| - 1])| <= n < |Concat(groups)|
    ensures var split := CallAll(code, s, groups, rets, addrs);
      var whole := Call(code, s, Concat(groups), rets[|rets| - 1], addrs[0]);
      && split.pc == whole.pc == CodeVal(s.heap, s.accu) + 2 && split.env == whole.env == s.accu
      && split.stack == whole.stack && split.extraArgs == whole.extraArgs
  {
    CallGroups(code, s, s.accu, n, [], groups, rets, addrs);
    CallOnce(code, s, s.accu, n, [], Concat(groups), rets[|rets| - 1], addrs[0]);
    assert [] + Concat(groups) == Concat(groups);
  }

  /** A body that returns a function, and got more arguments than it takes, has the function
      applied to the others, as if the caller had done so. */
  lemma ReturnAppliesRest(code: seq<CodeWord>, s: State, caller: State, locals: seq<Value>, more: seq<Value>, ret: int, addr: int)
    requires s.stack == locals + (more + Frame(ret, caller.env, caller.extraArgs) + caller.stack) && s.extraArgs == |more| > 0
    requires IsClosure(s.heap, s.accu)
    ensures CanReturn(s, |locals|)
    ensures Prologue(code, DoReturn(s, |locals|), addr) == Call(code, caller.(accu := s.accu, heap := s.heap), more, ret, addr)
  {
    assert s.stack[|locals|..] == more + Frame(ret, caller.env, caller.extraArgs) + caller.stack;
  }

  /** A tail call is the call the caller would have made: the frame of the function that makes
      it is gone, and the arguments left for its result go to the function called. */
  lemma TailCall(code: seq<CodeWord>, s: State, caller: State, args: seq<Value>, locals: seq<Value>, more: seq<Value>, ret: int, addr: int)
    requires s.stack == args + locals + (more + Frame(ret, caller.env, caller.extraArgs) + caller.stack)
    requires args != [] && s.extraArgs == |more| && IsClosure(s.heap, s.accu)
    ensures CanAppterm(s, |args|, |args| + |locals|)
    ensures Prologue(code, DoAppterm(s, |args|, |args| + |locals|), addr) == Call(code, caller.(accu := s.accu, heap := s.heap), args + more, ret, addr)
  {
    hide Prologue;
    var rest := more + Frame(ret, caller.env, caller.extraArgs) + caller.stack;
    assert s.stack[..|args|] == args && s.stack[|args| + |locals|..] == rest;
    assert args + rest == args + more + Frame(ret, caller.env, caller.extraArgs) + caller.stack;
  }

  // Splits after the function has all its arguments.

  /** What a body does: the value it returns, the heap it leaves, and the locals it has then. */
  datatype Outcome = Outcome(value: Value, heap: Heap, locals: seq<Value>, env: Value, pc: int)

  /** The body given by `run` takes the arguments `args` to that outcome, whatever lies below
      them on the stack and however many arguments are left for its result. */
  ghost predicate Evaluates(run: State -> State, entry: int, accu: Value, c: Value, h: Heap, args: seq<Value>, o: Outcome) {
    forall below: seq<Value>, x: int ::
      run(State(entry, args + below, accu, c, x, h)) == State(o.pc, o.locals + below, o.value, o.env, x, o.heap)
  }

  /** The function has been applied to exactly the arguments that were missing, and has
      returned; or it has been applied to more, and what it returned is applied to the rest.
      Applying the first result to the others, too, is the same as applying the function to all. */
  lemma SplitAfterAll(code: seq<CodeWord>, run: State -> State, s: State, c: Value, n: int, pre: seq<Value>, first: seq<Value>, more: seq<Value>,
      o: Outcome, ret1: int, ret2: int, addr: int, addr2: int)
    requires Function(code, s.heap, c, n) && Given(s.heap, s.accu, c, pre) && |pre| <= n && addr !in s.heap
    requires |pre| + |first| == n + 1 && more != []
    requires Evaluates(run, CodeVal(s.heap, c) + 2, s.accu, c, s.heap, pre + first, o) && IsClosure(o.heap, o.value)
    ensures var split, whole := run(Call(code, s, first, ret1, addr)), run(Call(code, s, first + more, ret2, addr));
      && CanReturn(split, |o.locals|) && CanReturn(whole, |o.locals|)
      && DoReturn(split, |o.locals|) == s.(pc := ret1, accu := o.value, heap := o.heap)
      && Call(code, DoReturn(split, |o.locals|), more, ret2, addr2) == Prologue(code, DoReturn(whole, |o.locals|), addr2)
  {
    hide Function, Given, Prologue;
    FunctionIsClosure(code, s.heap, c, n);
    CallOnce(code, s, c, n, pre, first, ret1, addr);
    CallOnce(code, s, c, n, pre, first + more, ret2, addr);
    var all, frame1, frame2 := pre + first, Frame(ret1, s.env, s.extraArgs), Frame(ret2, s.env, s.extraArgs);
    var one, two := Call(code, s, first, ret1, addr), Call(code, s, first + more, ret2, addr);
    CallKeeps(code, s, c, n, pre, first, ret1, addr);
    CallKeeps(code, s, c, n, pre, first + more, ret2, addr);
    assert pre + (first + more) == all + more;
    assert one.stack == all + (frame1 + s.stack) && two.stack == all + (more + frame2 + s.stack);
    var split, whole := run(one), run(two);
    assert split.stack == o.locals + (frame1 + s.stack) && whole.stack == o.locals + (more + frame2 + s.stack);
    assert split.stack[|o.locals|..] == frame1 + s.stack;
    assert (frame1 + s.stack)[3..] == s.stack;
    ReturnAppliesRest(code, whole, s, o.locals, more, ret2, addr2);
  }

  /** Entering the body leaves the heap and the accumulator as they were. */
  lemma CallKeeps(code: seq<CodeWord>, s: State, c: Value, n: int, pre: seq<Value>, args: seq<Value>, ret: int, addr: int)
    requires Function(code, s.heap, c, n) && Given(s.heap, s.accu, c, pre) && |pre| <= n < |pre| + |args| && addr !in s.heap
    ensures var r := Call(code, s, args, ret, addr); r.heap == s.heap && r.accu == s.accu
  {
    CallOnce(code, s, c, n, pre, args, ret, addr);
  }
}

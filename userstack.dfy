// The initial user stack `execve` builds for a new program: the argument and
// environment strings copied just below the stack top, each NUL-terminated and
// 16-byte aligned, and below them the System V frame
// `argc, argv[0..argc], NULL, envp[0..envc], NULL`, read upward from the
// returned stack pointer.

module UserStack {
  import opened Words

  /** Where the strings placed so far sit: the current stack pointer and their addresses. */
  datatype Layout = Layout(sp: int, ptrs: seq<int>)

  /** The addresses `setup_user_stack` hands the new program. */
  datatype StackLayout = StackLayout(sp: int, argvPtrs: seq<int>, envpPtrs: seq<int>, floor: int)

  /** The address one string gets below `sp`: room for it and its NUL, rounded down to 16. */
  function PlaceBelow(sp: int, s: seq<u8>): int
  {
    AlignDown16(sp - (|s| + 1))
  }

  /**
   * The string loops of `setup_user_stack`, from string `k - 1` down to string 0:
   * each string goes just below the previous one and its address is put in front.
   */
  function PlaceFrom(strs: seq<seq<u8>>, k: nat, l: Layout): Layout
    requires k <= |strs|
    decreases k
  {
    if k == 0 then l
    else
      var p := PlaceBelow(l.sp, strs[k - 1]);
      PlaceFrom(strs, k - 1, Layout(p, [p] + l.ptrs))
  }

  /** All of `strs`, placed below `top`. */
  function PlaceAll(strs: seq<seq<u8>>, top: int): Layout
  {
    PlaceFrom(strs, |strs|, Layout(top, []))
  }

  /** The complete layout: envp strings under the stack top, argv strings under those, then the frame. */
  function LayoutOf(stackTop: int, argv: seq<seq<u8>>, envp: seq<seq<u8>>): StackLayout
  {
    var env := PlaceAll(envp, stackTop);
    var args := PlaceAll(argv, env.sp);
    var floor := AlignDown16(args.sp);
    StackLayout(floor - 8 * (|argv| + |envp| + 3), args.ptrs, env.ptrs, floor)
  }

  /** No subtraction on `sp` underflows: the lowest word the frame uses is at or above 0. */
  predicate StackFits(stackTop: int, argv: seq<seq<u8>>, envp: seq<seq<u8>>)
  {
    LayoutOf(stackTop, argv, envp).sp >= 0
  }

  /** The words of the frame, from the returned stack pointer upward. */
  function Frame(argc: int, argvPtrs: seq<int>, envpPtrs: seq<int>): seq<int>
  {
    [argc] + (argvPtrs + ([0] + (envpPtrs + [0])))
  }

  /** Memory after `copy_nonoverlapping(s, p, |s|)` and `*(p + |s|) = 0`. */
  function StoreCString(mem: map<int, u8>, p: int, s: seq<u8>): map<int, u8>
  {
    StoreBytes(mem, p, s)[p + |s| := 0]
  }

  /**
   * Memory after the string loop has stored every `strs[j]` at `ptrs[j]`; the loop
   * runs from the last string to the first, so `strs[0]` is stored last.
   */
  function StoreStrings(mem: map<int, u8>, strs: seq<seq<u8>>, ptrs: seq<int>): map<int, u8>
    requires |strs| == |ptrs|
    decreases |strs|
  {
    if |strs| == 0 then mem
    else StoreCString(StoreStrings(mem, strs[1..], ptrs[1..]), ptrs[0], strs[0])
  }

  /** The memory `setup_user_stack` leaves: envp strings first, then argv strings. */
  function StackStrings(mem: map<int, u8>, stackTop: int, argv: seq<seq<u8>>, envp: seq<seq<u8>>): map<int, u8>
  {
    var l := LayoutOf(stackTop, argv, envp);
    LayoutLengths(stackTop, argv, envp);
    StoreStrings(StoreStrings(mem, envp, l.envpPtrs), argv, l.argvPtrs)
  }

  /** The byte at address `a` is `b`. */
  predicate ByteAt(mem: map<int, u8>, a: int, b: u8)
  {
    a in mem && mem[a] == b
  }

  /** `s` followed by a NUL is at `p`. */
  predicate CStringAt(mem: map<int, u8>, p: int, s: seq<u8>)
  {
    (forall i :: 0 <= i < |s| ==> ByteAt(mem, p + i, s[i]))
    && ByteAt(mem, p + |s|, 0)
  }

  /** `vals` are the u64 words at `sp`, `sp + 8`, ... */
  predicate WordsAt(words: map<int, int>, sp: int, vals: seq<int>)
  {
    forall j {:trigger vals[j]} :: 0 <= j < |vals| ==> sp + 8 * j in words && words[sp + 8 * j] == vals[j]
  }

  /** `w1` agrees with `w0` outside `[lo, hi)`. */
  ghost predicate SameOutside<T>(w0: map<int, T>, w1: map<int, T>, lo: int, hi: int)
  {
    forall a :: !(lo <= a < hi) ==> (a in w1 <==> a in w0) && (a in w0 ==> w1[a] == w0[a])
  }

  /**
   * Strings `strs` at `ptrs`, each 16-aligned and ending (NUL included) at or below
   * the start of the next one, the last at or below `top`.
   */
  predicate Separated(strs: seq<seq<u8>>, ptrs: seq<int>, top: int)
  {
    |ptrs| == |strs|
    && (forall j :: 0 <= j < |ptrs| ==> ptrs[j] % 16 == 0)
    && (forall j :: 0 <= j < |ptrs| - 1 ==> ptrs[j] + |strs[j]| + 1 <= ptrs[j + 1])
    && (|ptrs| > 0 ==> ptrs[|ptrs| - 1] + |strs[|ptrs| - 1]| + 1 <= top)
  }

  /** The lowest address the strings use, or `top` when there are none. */
  function Bottom(ptrs: seq<int>, top: int): int
  {
    if |ptrs| == 0 then top else ptrs[0]
  }

  // ---------------------------------------------------------------------
  // The operation

  /**
   * One of the two string loops of `setup_user_stack`: copy `strs`, last first,
   * each below the previous with its NUL at a 16-aligned address.
   */
  method CopyStrings(strs: seq<seq<u8>>, sp0: int, mem0: map<int, u8>)
    returns (sp: int, mem: map<int, u8>, ptrs: seq<int>)
    requires PlaceAll(strs, sp0).sp >= 0
    ensures Layout(sp, ptrs) == PlaceAll(strs, sp0)
    ensures |ptrs| == |strs| && mem == StoreStrings(mem0, strs, ptrs)
  {
    sp, mem, ptrs := sp0, mem0, [];
    var k := |strs|;
    while k > 0
      invariant 0 <= k <= |strs| && |ptrs| == |strs| - k
      invariant PlaceFrom(strs, k, Layout(sp, ptrs)) == PlaceAll(strs, sp0)
      invariant mem == StoreStrings(mem0, strs[k..], ptrs)
    {
      var s := strs[k - 1];
      ghost var p := PlaceBelow(sp, s);
      PlaceFromBelow(strs, k - 1, Layout(p, [p] + ptrs));
      StoreStringsStep(mem0, strs, k, p, ptrs);
      assert PlaceFrom(strs, k, Layout(sp, ptrs)) == PlaceFrom(strs, k - 1, Layout(p, [p] + ptrs));
      sp := AlignDown16(sp - (|s| + 1));
      mem := StoreCString(mem, sp, s);
      ptrs := [sp] + ptrs;
      k := k - 1;
    }
  }

  /** Storing string `k - 1` at `p` on top of strings `k..` extends `StoreStrings` by one. */
  lemma StoreStringsStep(mem0: map<int, u8>, strs: seq<seq<u8>>, k: nat, p: int, ptrs: seq<int>)
    requires 0 < k <= |strs| && |ptrs| == |strs| - k
    ensures StoreStrings(mem0, strs[k - 1..], [p] + ptrs)
            == StoreCString(StoreStrings(mem0, strs[k..], ptrs), p, strs[k - 1])
  {
    assert strs[k - 1..][1..] == strs[k..];
    assert ([p] + ptrs)[1..] == ptrs;
  }

  /** `for ptr in ptrs.iter().rev() { sp -= 8; *(sp as *mut u64) = *ptr; }` */
  method PushReversed(words0: map<int, int>, sp0: int, vals: seq<int>)
    returns (sp: int, words: map<int, int>)
    ensures sp == sp0 - 8 * |vals|
    ensures WordsAt(words, sp, vals)
    ensures SameOutside(words0, words, sp, sp0)
  {
    sp, words := sp0, words0;
    var k := |vals|;
    while k > 0
      invariant 0 <= k <= |vals| && sp == sp0 - 8 * (|vals| - k)
      invariant WordsAt(words, sp, vals[k..])
      invariant SameOutside(words0, words, sp, sp0)
    {
      PushWord(words, sp, vals, k);
      k := k - 1;
      sp := sp - 8;
      words := words[sp := vals[k]];
    }
  }

  /**
   * A NULL terminator, then `vals` in reverse (lines 181-188 for envp, 191-198 for
   * argv), pushed below the words `above` already at `sp0`.
   */
  method PushBlock(words0: map<int, int>, sp0: int, vals: seq<int>, ghost above: seq<int>)
    returns (sp: int, words: map<int, int>)
    requires WordsAt(words0, sp0, above)
    ensures sp == sp0 - 8 * (|vals| + 1)
    ensures WordsAt(words, sp, vals + ([0] + above))
    ensures SameOutside(words0, words, sp, sp0)
  {
    sp := sp0 - 8;
    words := words0[sp := 0];
    PushOne(words0, sp0, 0, above);
    ghost var w1, sp1 := words, sp;
    sp, words := PushReversed(words, sp, vals);
    KeepWords(w1, words, sp1, [0] + above, sp, sp1);
    JoinWords(words, sp, vals, [0] + above);
    SameOutsideTrans(words0, w1, words, sp, sp1, sp0);
  }

  /**
   * Lines 181-202 of `setup_user_stack`: below the 16-aligned `floor`, the envp
   * terminator and pointers, the argv terminator and pointers, then argc.
   */
  method PushFrame(words0: map<int, int>, floor: int, argc: int, argvPtrs: seq<int>, envpPtrs: seq<int>)
    returns (sp: int, words: map<int, int>)
    ensures sp == floor - 8 * (|argvPtrs| + |envpPtrs| + 3)
    ensures WordsAt(words, sp, Frame(argc, argvPtrs, envpPtrs))
    ensures SameOutside(words0, words, sp, floor)
  {
    assert envpPtrs + ([0] + []) == envpPtrs + [0];
    sp, words := PushBlock(words0, floor, envpPtrs, []);
    ghost var w1, sp1 := words, sp;
    sp, words := PushBlock(words, sp, argvPtrs, envpPtrs + [0]);
    SameOutsideTrans(words0, w1, words, sp, sp1, floor);
    ghost var w2, sp2 := words, sp;
    PushOne(words, sp, argc, argvPtrs + ([0] + (envpPtrs + [0])));
    sp := sp - 8;
    words := words[sp := argc];
    SameOutsideTrans(words0, w2, words, sp, sp2, floor);
  }

  /**
   * `setup_user_stack(stack_top, argv, envp)`: the strings below `stack_top`, then
   * the frame read upward from the returned `sp`; no other word changes.
   */
  method SetupUserStack(stackTop: int, argv: seq<seq<u8>>, envp: seq<seq<u8>>,
                        mem0: map<int, u8>, words0: map<int, int>)
    returns (sp: int, mem: map<int, u8>, words: map<int, int>)
    requires 0 <= stackTop < U64_LIMIT
    requires StackFits(stackTop, argv, envp)
    ensures var l := LayoutOf(stackTop, argv, envp);
            sp == l.sp
            && mem == StackStrings(mem0, stackTop, argv, envp)
            && WordsAt(words, sp, Frame(|argv|, l.argvPtrs, l.envpPtrs))
            && SameOutside(words0, words, sp, l.floor)
  {
    LayoutLengths(stackTop, argv, envp);
    PlaceFromBelow(argv, |argv|, Layout(PlaceAll(envp, stackTop).sp, []));
    var envpPtrs, argvPtrs;
    sp, mem, envpPtrs := CopyStrings(envp, stackTop, mem0);
    sp, mem, argvPtrs := CopyStrings(argv, sp, mem);
    sp := sp - sp % 16;
    sp, words := PushFrame(words0, sp, |argv|, argvPtrs, envpPtrs);
  }

  /**
   * The stack pointer with the padding the psABI asks for (section 3.4.1: RSP is
   * 16-byte aligned at process entry): one more word below the frame when
   * `argc + envc` is even.
   */
  function PaddedSp(stackTop: int, argv: seq<seq<u8>>, envp: seq<seq<u8>>): int
  {
    LayoutOf(stackTop, argv, envp).sp - (if (|argv| + |envp|) % 2 == 0 then 8 else 0)
  }

  /**
   * `setup_user_stack` with the padding word: the same strings and the same frame,
   * pushed below one unused word when `argc + envc` is even, so that the returned
   * `sp` is 16-byte aligned whatever the number of strings.
   */
  method SetupUserStackPadded(stackTop: int, argv: seq<seq<u8>>, envp: seq<seq<u8>>,
                              mem0: map<int, u8>, words0: map<int, int>)
    returns (sp: int, mem: map<int, u8>, words: map<int, int>)
    requires 0 <= stackTop < U64_LIMIT
    requires PaddedSp(stackTop, argv, envp) >= 0
    ensures var l := LayoutOf(stackTop, argv, envp);
            sp == PaddedSp(stackTop, argv, envp) && sp % 16 == 0
            && mem == StackStrings(mem0, stackTop, argv, envp)
            && WordsAt(words, sp, Frame(|argv|, l.argvPtrs, l.envpPtrs))
            && SameOutside(words0, words, sp, l.floor)
  {
    LayoutLengths(stackTop, argv, envp);
    PlaceFromBelow(argv, |argv|, Layout(PlaceAll(envp, stackTop).sp, []));
    var envpPtrs, argvPtrs;
    sp, mem, envpPtrs := CopyStrings(envp, stackTop, mem0);
    sp, mem, argvPtrs := CopyStrings(argv, sp, mem);
    sp := sp - sp % 16;
    ghost var floor := sp;
    if (|argv| + |envp|) % 2 == 0 {
      sp := sp - 8;
    }
    FrameParity(floor, |argv| + |envp| + 1);
    sp, words := PushFrame(words0, sp, |argv|, argvPtrs, envpPtrs);
  }

  // ---------------------------------------------------------------------
  // Properties

  /** One push of `vals[k - 1]` below the words `vals[k..]`. */
  lemma PushWord(words: map<int, int>, sp: int, vals: seq<int>, k: nat)
    requires 0 < k <= |vals|
    requires WordsAt(words, sp, vals[k..])
    ensures WordsAt(words[sp - 8 := vals[k - 1]], sp - 8, vals[k - 1..])
  {
    var w := words[sp - 8 := vals[k - 1]];
    forall j | 0 <= j < |vals| - k + 1
      ensures sp - 8 + 8 * j in w && w[sp - 8 + 8 * j] == vals[k - 1..][j]
    {
      if j > 0 {
        assert sp - 8 + 8 * j == sp + 8 * (j - 1);
        assert vals[k..][j - 1] == vals[k - 1..][j];
      }
    }
  }

  /** One push of `v` below the words `above`; nothing else moves. */
  lemma PushOne(words: map<int, int>, sp: int, v: int, above: seq<int>)
    requires WordsAt(words, sp, above)
    ensures WordsAt(words[sp - 8 := v], sp - 8, [v] + above)
    ensures SameOutside(words, words[sp - 8 := v], sp - 8, sp)
  {
    var w := words[sp - 8 := v];
    forall j | 0 <= j < |above| + 1
      ensures sp - 8 + 8 * j in w && w[sp - 8 + 8 * j] == ([v] + above)[j]
    {
      if j > 0 {
        assert sp - 8 + 8 * j == sp + 8 * (j - 1);
        assert above[j - 1] == ([v] + above)[j];
      }
    }
  }

  /** Two adjacent runs of words read as one. */
  lemma JoinWords(words: map<int, int>, sp: int, lower: seq<int>, upper: seq<int>)
    requires WordsAt(words, sp, lower)
    requires WordsAt(words, sp + 8 * |lower|, upper)
    ensures WordsAt(words, sp, lower + upper)
  {
    forall j | 0 <= j < |lower| + |upper|
      ensures sp + 8 * j in words && words[sp + 8 * j] == (lower + upper)[j]
    {
      if j < |lower| {
        assert lower[j] == (lower + upper)[j];
      } else {
        assert sp + 8 * j == sp + 8 * |lower| + 8 * (j - |lower|);
        assert upper[j - |lower|] == (lower + upper)[j];
      }
    }
  }

  /** Two stores below `hi`, the second below where the first began, stay below `hi`. */
  lemma SameOutsideTrans<T>(w0: map<int, T>, w1: map<int, T>, w2: map<int, T>, lo: int, mid: int, hi: int)
    requires SameOutside(w0, w1, mid, hi)
    requires SameOutside(w1, w2, lo, mid)
    requires lo <= mid <= hi
    ensures SameOutside(w0, w2, lo, hi)
  {
  }

  /** Words at or above `hi` survive stores confined to `[lo, hi)`. */
  lemma KeepWords(w0: map<int, int>, w1: map<int, int>, at: int, vals: seq<int>, lo: int, hi: int)
    requires WordsAt(w0, at, vals)
    requires SameOutside(w0, w1, lo, hi)
    requires hi <= at
    ensures WordsAt(w1, at, vals)
  {
    forall j | 0 <= j < |vals|
      ensures at + 8 * j in w1 && w1[at + 8 * j] == vals[j]
    {
      var v, a := vals[j], at + 8 * j;
      assert a in w0 && w0[a] == v;
      assert !(lo <= a < hi);
    }
  }

  /** The placement never moves `sp` up. */
  lemma {:induction false} PlaceFromBelow(strs: seq<seq<u8>>, k: nat, l: Layout)
    requires k <= |strs|
    ensures PlaceFrom(strs, k, l).sp <= l.sp
    decreases k
  {
    if k > 0 {
      var p := PlaceBelow(l.sp, strs[k - 1]);
      PlaceFromBelow(strs, k - 1, Layout(p, [p] + l.ptrs));
    }
  }

  /**
   * Placing strings `0..k` below `l`: `k` new addresses in front of the old ones,
   * each 16-aligned, each string (with its NUL) ending at or below the next one,
   * string `k - 1` at or below `l.sp`, and `sp` left at the lowest string.
   */
  lemma {:induction false} PlaceFromShape(strs: seq<seq<u8>>, k: nat, l: Layout)
    requires k <= |strs|
    ensures var r := PlaceFrom(strs, k, l);
            |r.ptrs| == k + |l.ptrs| && r.ptrs[k..] == l.ptrs
            && Separated(strs[..k], r.ptrs[..k], l.sp)
            && r.sp == Bottom(r.ptrs[..k], l.sp)
    decreases k
  {
    if k > 0 {
      var s := strs[k - 1];
      var p := PlaceBelow(l.sp, s);
      var l' := Layout(p, [p] + l.ptrs);
      PlaceFromShape(strs, k - 1, l');
      var r := PlaceFrom(strs, k, l);
      assert r == PlaceFrom(strs, k - 1, l');
      assert r.ptrs[k - 1..] == [p] + l.ptrs;
      assert r.ptrs[k - 1] == p;
      assert r.ptrs[k..] == r.ptrs[k - 1..][1..];
      var ps := r.ptrs[..k];
      assert ps[..k - 1] == r.ptrs[..k - 1];
      assert strs[..k][..k - 1] == strs[..k - 1];
      assert ps[k - 1] == p;
      assert Separated(strs[..k], ps, l.sp);
    }
  }

  /** The layout records one address per string. */
  lemma LayoutLengths(stackTop: int, argv: seq<seq<u8>>, envp: seq<seq<u8>>)
    ensures |LayoutOf(stackTop, argv, envp).argvPtrs| == |argv|
    ensures |LayoutOf(stackTop, argv, envp).envpPtrs| == |envp|
  {
    PlaceFromShape(envp, |envp|, Layout(stackTop, []));
    PlaceFromShape(argv, |argv|, Layout(PlaceAll(envp, stackTop).sp, []));
  }

  /** Strings that are separated stay separated without their first one. */
  lemma SeparatedTail(strs: seq<seq<u8>>, ptrs: seq<int>, top: int)
    requires Separated(strs, ptrs, top) && |strs| > 0
    ensures Separated(strs[1..], ptrs[1..], top)
    ensures ptrs[0] + |strs[0]| + 1 <= Bottom(ptrs[1..], top)
  {
    var ss, ps := strs[1..], ptrs[1..];
    forall j | 0 <= j < |ps| - 1
      ensures ps[j] + |ss[j]| + 1 <= ps[j + 1]
    {
      assert ps[j] == ptrs[j + 1] && ss[j] == strs[j + 1] && ps[j + 1] == ptrs[j + 2];
    }
  }

  /** Separated strings lie at or above the lowest of them, and their ends at or below `top`. */
  lemma {:induction false} SeparatedBounds(strs: seq<seq<u8>>, ptrs: seq<int>, top: int)
    requires Separated(strs, ptrs, top)
    ensures forall j :: 0 <= j < |ptrs| ==> Bottom(ptrs, top) <= ptrs[j] && ptrs[j] + |strs[j]| + 1 <= top
    decreases |ptrs|
  {
    if |ptrs| > 0 {
      SeparatedTail(strs, ptrs, top);
      SeparatedBounds(strs[1..], ptrs[1..], top);
      forall j | 1 <= j < |ptrs|
        ensures Bottom(ptrs, top) <= ptrs[j] && ptrs[j] + |strs[j]| + 1 <= top
      {
        assert ptrs[1..][j - 1] == ptrs[j] && strs[1..][j - 1] == strs[j];
      }
    }
  }

  /** One NUL-terminated store puts `s` at `p` and changes nothing outside `[p, p + |s| + 1)`. */
  lemma StoreCStringEffect(mem: map<int, u8>, p: int, s: seq<u8>)
    ensures CStringAt(StoreCString(mem, p, s), p, s)
    ensures SameOutside(mem, StoreCString(mem, p, s), p, p + |s| + 1)
  {
    StoreBytesEffect(mem, p, s);
  }

  /** A NUL-terminated string survives a store that ends at or below it. */
  lemma StoreCStringKeeps(mem: map<int, u8>, p: int, s: seq<u8>, q: int, t: seq<u8>)
    requires CStringAt(mem, q, t)
    requires p + |s| + 1 <= q
    ensures CStringAt(StoreCString(mem, p, s), q, t)
  {
    var m := StoreCString(mem, p, s);
    StoreCStringEffect(mem, p, s);
    forall i | 0 <= i < |t|
      ensures ByteAt(m, q + i, t[i])
    {
      assert ByteAt(mem, q + i, t[i]);
      assert !(p <= q + i < p + |s| + 1);
    }
    assert ByteAt(mem, q + |t|, 0);
    assert !(p <= q + |t| < p + |s| + 1);
  }

  /**
   * Storing separated strings: each `strs[j]` with its NUL is at `ptrs[j]`, and no
   * byte outside `[ptrs[0], top)` changes.
   */
  lemma {:induction false} StoreStringsEffect(mem: map<int, u8>, strs: seq<seq<u8>>, ptrs: seq<int>, top: int)
    requires Separated(strs, ptrs, top)
    ensures forall j :: 0 <= j < |strs| ==> CStringAt(StoreStrings(mem, strs, ptrs), ptrs[j], strs[j])
    ensures SameOutside(mem, StoreStrings(mem, strs, ptrs), Bottom(ptrs, top), top)
    decreases |strs|
  {
    if |strs| > 0 {
      var p, s := ptrs[0], strs[0];
      SeparatedTail(strs, ptrs, top);
      SeparatedBounds(strs[1..], ptrs[1..], top);
      var m1 := StoreStrings(mem, strs[1..], ptrs[1..]);
      StoreStringsEffect(mem, strs[1..], ptrs[1..], top);
      var m := StoreStrings(mem, strs, ptrs);
      assert m == StoreCString(m1, p, s);
      StoreCStringEffect(m1, p, s);
      forall j | 1 <= j < |strs|
        ensures CStringAt(m, ptrs[j], strs[j])
      {
        assert ptrs[1..][j - 1] == ptrs[j] && strs[1..][j - 1] == strs[j];
        StoreCStringKeeps(m1, p, s, ptrs[j], strs[j]);
      }
      SameOutsideTrans(mem, m1, m, p, Bottom(ptrs[1..], top), top);
    }
  }

  /** A NUL-terminated string at or above `hi` survives stores confined to `[lo, hi)`. */
  lemma CStringKept(m0: map<int, u8>, m1: map<int, u8>, lo: int, hi: int, q: int, t: seq<u8>)
    requires CStringAt(m0, q, t)
    requires SameOutside(m0, m1, lo, hi)
    requires hi <= q
    ensures CStringAt(m1, q, t)
  {
    forall i | 0 <= i < |t|
      ensures ByteAt(m1, q + i, t[i])
    {
      assert ByteAt(m0, q + i, t[i]);
      assert !(lo <= q + i < hi);
    }
    assert ByteAt(m0, q + |t|, 0);
    assert !(lo <= q + |t| < hi);
  }

  /** The placement of all of `strs` below `top`, in the terms of `Separated`. */
  lemma PlaceAllShape(strs: seq<seq<u8>>, top: int)
    ensures Separated(strs, PlaceAll(strs, top).ptrs, top)
    ensures PlaceAll(strs, top).sp == Bottom(PlaceAll(strs, top).ptrs, top)
  {
    PlaceFromShape(strs, |strs|, Layout(top, []));
    var ps := PlaceAll(strs, top).ptrs;
    assert strs[..|strs|] == strs;
    assert ps[..|strs|] == ps;
  }

  /**
   * The strings `setup_user_stack` copies: each envp and argv string, NUL-terminated,
   * at its 16-aligned pointer; envp strings between the argv strings and the stack
   * top, argv strings below them; no byte outside `[lowest string, stack_top)` changes.
   */
  lemma StackStringsPlaced(mem0: map<int, u8>, stackTop: int, argv: seq<seq<u8>>, envp: seq<seq<u8>>)
    ensures var l := LayoutOf(stackTop, argv, envp);
            var mem := StackStrings(mem0, stackTop, argv, envp);
            var envBottom := Bottom(l.envpPtrs, stackTop);
            Separated(envp, l.envpPtrs, stackTop)
            && Separated(argv, l.argvPtrs, envBottom)
            && (forall k :: 0 <= k < |envp| ==> CStringAt(mem, l.envpPtrs[k], envp[k]))
            && (forall k :: 0 <= k < |argv| ==> CStringAt(mem, l.argvPtrs[k], argv[k]))
            && SameOutside(mem0, mem, Bottom(l.argvPtrs, envBottom), stackTop)
  {
    var l := LayoutOf(stackTop, argv, envp);
    var envBottom := Bottom(l.envpPtrs, stackTop);
    PlaceAllShape(envp, stackTop);
    PlaceAllShape(argv, envBottom);
    var m1 := StoreStrings(mem0, envp, l.envpPtrs);
    StoreStringsEffect(mem0, envp, l.envpPtrs, stackTop);
    StoreStringsEffect(m1, argv, l.argvPtrs, envBottom);
    SeparatedBounds(envp, l.envpPtrs, stackTop);
    SeparatedBounds(argv, l.argvPtrs, envBottom);
    var mem := StackStrings(mem0, stackTop, argv, envp);
    forall k | 0 <= k < |envp|
      ensures CStringAt(mem, l.envpPtrs[k], envp[k])
    {
      CStringKept(m1, mem, Bottom(l.argvPtrs, envBottom), envBottom, l.envpPtrs[k], envp[k]);
    }
    SameOutsideTrans(mem0, m1, mem, Bottom(l.argvPtrs, envBottom), envBottom, stackTop);
  }

  /**
   * The frame: 16-aligned `floor` at or below the lowest string, `argc + envc + 3`
   * words from the returned `sp` up to it, so `sp` is 8-aligned, and 16-aligned
   * exactly when `argc + envc` is odd.
   */
  lemma StackFrameShape(stackTop: int, argv: seq<seq<u8>>, envp: seq<seq<u8>>)
    ensures var l := LayoutOf(stackTop, argv, envp);
            l.floor % 16 == 0
            && l.floor <= Bottom(l.argvPtrs, Bottom(l.envpPtrs, stackTop)) <= Bottom(l.envpPtrs, stackTop) <= stackTop
            && l.sp + 8 * |Frame(|argv|, l.argvPtrs, l.envpPtrs)| == l.floor
            && l.sp % 8 == 0
            && (l.sp % 16 == 0 <==> (|argv| + |envp|) % 2 == 1)
  {
    var l := LayoutOf(stackTop, argv, envp);
    PlaceAllShape(envp, stackTop);
    PlaceAllShape(argv, Bottom(l.envpPtrs, stackTop));
    PlaceFromBelow(envp, |envp|, Layout(stackTop, []));
    PlaceFromBelow(argv, |argv|, Layout(Bottom(l.envpPtrs, stackTop), []));
    LayoutLengths(stackTop, argv, envp);
    FrameParity(l.floor, |argv| + |envp|);
  }

  /**
   * As written, `setup_user_stack(0x8000, ["a", "bc"], [])` returns 0x7FB8, which is
   * not 16-byte aligned: "bc" goes to 0x7FF0, "a" to 0x7FE0, and five words sit below.
   */
  lemma AsWrittenMisaligned()
    ensures LayoutOf(0x8000, [[97], [98, 99]], []).sp == 0x7FB8
    ensures 0x7FB8 % 16 == 8
    ensures PaddedSp(0x8000, [[97], [98, 99]], []) % 16 == 0
  {
    var argv: seq<seq<u8>> := [[97], [98, 99]];
    assert PlaceAll([], 0x8000) == Layout(0x8000, []);
    assert PlaceBelow(0x8000, argv[1]) == 0x7FF0;
    assert PlaceBelow(0x7FF0, argv[0]) == 0x7FE0;
    assert [0x7FF0] + [] == [0x7FF0];
    assert PlaceFrom(argv, 2, Layout(0x8000, [])) == PlaceFrom(argv, 1, Layout(0x7FF0, [0x7FF0]));
    assert [0x7FE0] + [0x7FF0] == [0x7FE0, 0x7FF0];
    assert PlaceFrom(argv, 1, Layout(0x7FF0, [0x7FF0])) == Layout(0x7FE0, [0x7FE0, 0x7FF0]);
    assert PlaceAll(argv, 0x8000) == Layout(0x7FE0, [0x7FE0, 0x7FF0]);
  }

  /** `floor - 8 * (n + 3)` below a 16-aligned `floor` is 16-aligned exactly when `n` is odd. */
  lemma FrameParity(floor: int, n: nat)
    requires floor % 16 == 0
    ensures (floor - 8 * (n + 3)) % 8 == 0
    ensures (floor - 8 * (n + 3)) % 16 == 0 <==> n % 2 == 1
  {
    var a, b := floor / 16, (n + 3) / 2;
    if (n + 3) % 2 == 0 {
      assert floor - 8 * (n + 3) == 16 * (a - b);
    } else {
      assert floor - 8 * (n + 3) == 16 * (a - b - 1) + 8;
    }
  }

  /** Bytes `strs[0..k]` take at most: each string, its NUL and up to 15 bytes of alignment. */
  function Need(strs: seq<seq<u8>>, k: nat): nat
    requires k <= |strs|
  {
    if k == 0 then 0 else Need(strs, k - 1) + |strs[k - 1]| + 16
  }

  /** Placing strings `0..k` lowers `sp` by at most `Need(strs, k)`. */
  lemma {:induction false} PlaceFromAbove(strs: seq<seq<u8>>, k: nat, l: Layout)
    requires k <= |strs|
    ensures PlaceFrom(strs, k, l).sp >= l.sp - Need(strs, k)
    decreases k
  {
    if k > 0 {
      var p := PlaceBelow(l.sp, strs[k - 1]);
      PlaceFromAbove(strs, k - 1, Layout(p, [p] + l.ptrs));
    }
  }

  /** A stack top above the strings' room and the frame's words is enough for `StackFits`. */
  lemma StackFitsWhen(stackTop: int, argv: seq<seq<u8>>, envp: seq<seq<u8>>)
    requires stackTop >= Need(envp, |envp|) + Need(argv, |argv|) + 8 * (|argv| + |envp| + 3) + 15
    ensures StackFits(stackTop, argv, envp)
  {
    PlaceFromAbove(envp, |envp|, Layout(stackTop, []));
    PlaceFromAbove(argv, |argv|, Layout(PlaceAll(envp, stackTop).sp, []));
  }
}

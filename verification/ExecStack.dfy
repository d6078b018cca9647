/** The first user stack: do_stack_vma and copy_params_to_userspace (sys/memory.c) lay out
    argc, argv and envp, and _start (crt/crt1.c) finds them again.

    One page holds the words of the stack and is mapped two pages below STACK_START; the
    page at STACK_START holds the strings. */
module ExecStack {
  import opened Basics

  const WORDS: nat := 512
  const STACK_START: nat := 0x0000_7fff_ffff_f000
  const WORD_PAGE: nat := STACK_START - 2 * PAGE

  /** A C string without its terminator. */
  type Text = s: seq<bv8> | forall i | 0 <= i < |s| :: s[i] != 0

  /** Bytes the strings take, terminators included. */
  function Total(strs: seq<Text>): (n: nat)
  {
    if strs == [] then 0 else |strs[0]| + 1 + Total(strs[1..])
  }

  // ---------------------------------------------------------------- reading the stack

  /** The two pages as user mode sees them. */
  datatype Image = Image(words: seq<nat>, bytes: seq<bv8>)

  ghost predicate Whole(img: Image)
  {
    |img.words| == WORDS && |img.bytes| == PAGE
  }

  /** The word at a user address; unmapped addresses read as 0. */
  function WordAt(img: Image, x: nat): (w: nat)
  {
    if WORD_PAGE <= x && (x - WORD_PAGE) % 8 == 0 && (x - WORD_PAGE) / 8 < |img.words|
    then img.words[(x - WORD_PAGE) / 8] else 0
  }

  /** The C string from offset `off` of the string page. */
  function TextFrom(bytes: seq<bv8>, off: nat): (s: Text)
    decreases |bytes| - off
  {
    if off < |bytes| && bytes[off] != 0 then [bytes[off]] + TextFrom(bytes, off + 1) else []
  }

  function TextAt(img: Image, x: nat): (s: Text)
  {
    if STACK_START <= x then TextFrom(img.bytes, x - STACK_START) else []
  }

  /** The strings of a pointer list that ends with a null word. */
  function TextsAt(img: Image, x: nat): (l: seq<Text>)
    decreases WORD_PAGE + PAGE - x
  {
    if WORD_PAGE + PAGE <= x || WordAt(img, x) == 0 then []
    else [TextAt(img, WordAt(img, x))] + TextsAt(img, x + 8)
  }

  /** The arguments main gets. */
  datatype Arguments = Arguments(argc: nat, argv: seq<Text>, envp: seq<Text>)

  /** _start: pop argc, argv is the stack pointer, envp lies 8 * argc + 8 above it. */
  function Start(img: Image, rsp: nat): (r: Arguments)
  {
    var rdi := WordAt(img, rsp);
    var rsi := rsp + 8;
    var rdx := 8 + rsi + 8 * rdi;
    Arguments(rdi, TextsAt(img, rsi), TextsAt(img, rdx))
  }

  // ---------------------------------------------------------------- laying it out

  /** Where string `k` goes when strings are written from the last to the first. */
  function OffsetOf(strs: seq<Text>, k: nat, off: nat): (o: nat)
    requires k < |strs|
  {
    off + Total(strs[k + 1..])
  }

  /** The words from `top - |strs| - 1` up to `top` point to the strings, then hold null. */
  ghost predicate PointersLaid(words: seq<nat>, strs: seq<Text>, top: nat, off: nat)
    requires |strs| + 1 <= top <= |words|
  {
    && words[top - 1] == 0
    && forall k | 0 <= k < |strs| :: words[top - 1 - |strs| + k] == STACK_START + OffsetOf(strs, k, off)
  }

  /** String `k` and its terminator stand at its offset. */
  ghost predicate TextLaid(bytes: seq<bv8>, s: Text, o: nat)
  {
    && o + |s| < |bytes| && bytes[o + |s|] == 0
    && forall i | 0 <= i < |s| :: bytes[o + i] == s[i]
  }

  ghost predicate TextsLaid(bytes: seq<bv8>, strs: seq<Text>, off: nat)
  {
    forall k | 0 <= k < |strs| :: TextLaid(bytes, strs[k], OffsetOf(strs, k, off))
  }

  lemma {:induction false} TotalFrom(strs: seq<Text>, k: nat)
    requires k < |strs|
    ensures Total(strs[k..]) == |strs[k]| + 1 + Total(strs[k + 1..])
  {
    assert strs[k..][0] == strs[k] && strs[k..][1..] == strs[k + 1..];
  }

  lemma {:induction false} TotalShrinks(strs: seq<Text>, j: nat, k: nat)
    requires j <= k <= |strs|
    ensures Total(strs[k..]) <= Total(strs[j..])
    decreases k - j
  {
    if j < k {
      TotalFrom(strs, j);
      TotalShrinks(strs, j + 1, k);
    }
  }

  // ---------------------------------------------------------------- reading back

  lemma {:induction false} TextRead(bytes: seq<bv8>, s: Text, o: nat)
    requires TextLaid(bytes, s, o)
    ensures TextFrom(bytes, o) == s
    decreases |s|
  {
    if s != [] {
      var rest: Text := s[1..];
      assert forall i | 0 <= i < |rest| :: rest[i] == s[i + 1] == bytes[o + (i + 1)];
      TextRead(bytes, rest, o + 1);
      assert s == [s[0]] + rest;
    }
  }

  /** Reading a laid list from word `top - 1 - |strs| + k` gives the strings from `k` on. */
  lemma {:induction false} TextsRead(img: Image, strs: seq<Text>, top: nat, off: nat, k: nat)
    requires Whole(img) && |strs| + 1 <= top <= WORDS && k <= |strs|
    requires PointersLaid(img.words, strs, top, off) && TextsLaid(img.bytes, strs, off)
    ensures TextsAt(img, WORD_PAGE + 8 * (top - 1 - |strs| + k)) == strs[k..]
    decreases |strs| - k
  {
    var i := top - 1 - |strs| + k;
    var x := WORD_PAGE + 8 * i;
    assert WordAt(img, x) == img.words[i];
    if k < |strs| {
      TextsRead(img, strs, top, off, k + 1);
      TextRead(img.bytes, strs[k], OffsetOf(strs, k, off));
      assert strs[k..] == [strs[k]] + strs[k + 1..];
    }
  }

  /** The stack pointer exec stores for the given numbers of strings. */
  function StackPointer(argc: nat, envc: nat): (x: nat)
    requires argc + envc + 3 <= WORDS
  {
    STACK_START - PAGE - 8 * (argc + envc + 3)
  }

  /** Round trip: from a stack laid out this way _start recovers argc, every argument and
      every environment string, in order. */
  lemma StartRecovers(img: Image, argv: seq<Text>, envp: seq<Text>)
    requires Whole(img) && |argv| + |envp| + 3 <= WORDS
    requires PointersLaid(img.words, envp, WORDS, 0) && TextsLaid(img.bytes, envp, 0)
    requires PointersLaid(img.words, argv, WORDS - |envp| - 1, Total(envp)) && TextsLaid(img.bytes, argv, Total(envp))
    requires img.words[WORDS - |envp| - |argv| - 3] == |argv|
    ensures Start(img, StackPointer(|argv|, |envp|)) == Arguments(|argv|, argv, envp)
  {
    hide TextsAt, PointersLaid, TextsLaid, WordAt, Total;
    var rsp, i := StackPointer(|argv|, |envp|), WORDS - |envp| - |argv| - 3;
    assert rsp == WORD_PAGE + 8 * i;
    WordAtIndex(img, i);
    TextsRead(img, argv, WORDS - |envp| - 1, Total(envp), 0);
    TextsRead(img, envp, WORDS, 0, 0);
    assert argv[0..] == argv && envp[0..] == envp;
  }

  lemma WordAtIndex(img: Image, i: nat)
    requires i < |img.words|
    ensures WordAt(img, WORD_PAGE + 8 * i) == img.words[i]
  {
  }

  // ---------------------------------------------------------------- the loops that write it

  /** copy_params_to_userspace: `top` is max_copy, `off` the offset of *deststr in its page. */
  method CopyParams(strs: seq<Text>, top: nat, words: array<nat>, bytes: array<bv8>, off: nat) returns (off': nat)
    requires words.Length == WORDS && bytes.Length == PAGE
    requires |strs| + 1 <= top <= WORDS && off + Total(strs) <= PAGE
    modifies words, bytes
    ensures off' == off + Total(strs)
    ensures PointersLaid(words[..], strs, top, off) && TextsLaid(bytes[..], strs, off)
    ensures forall j | 0 <= j < top - 1 - |strs| || top <= j < WORDS :: words[j] == old(words[j])
    ensures forall j | 0 <= j < off || off' <= j < PAGE :: bytes[j] == old(bytes[j])
  {
    hide TextsLaidFrom, PointersLaidFrom, TextLaid, Total;
    var user := STACK_START + off % PAGE;
    off' := off;
    var max := top - 1;
    words[max] := 0;
    var n := |strs|;
    NothingLaid(words[..], bytes[..], strs, top, off);
    TotalFromAll(strs);
    if 0 < n {
      TotalFrom(strs, 0);
    }
    while 0 < n
      invariant 0 <= n <= |strs| && max == top - 1 - (|strs| - n)
      invariant off' == off + Total(strs[n..])
      invariant 0 < n ==> user == STACK_START + off'
      invariant PointersLaidFrom(words[..], strs, top, off, n) && TextsLaidFrom(bytes[..], strs, off, n)
      invariant forall j | 0 <= j < max || top <= j < WORDS :: words[j] == old(words[j])
      invariant forall j | 0 <= j < off || off' <= j < PAGE :: bytes[j] == old(bytes[j])
    {
      n := n - 1;
      var src := strs[n];
      TotalFrom(strs, n);
      TotalShrinks(strs, 0, n);
      TotalShrinks(strs, 0, n + 1);
      max := max - 1;
      ghost var words0, bytes0 := words[..], bytes[..];
      words[max] := user;
      var i := CopyText(src, bytes, off');
      LaidOneMore(words0, words[..], bytes0, bytes[..], strs, top, off, n);
      user := user + i;
      off' := off' + i;
    }
    LaidAll(words[..], bytes[..], strs, top, off);
  }

  ghost predicate PointersLaidFrom(words: seq<nat>, strs: seq<Text>, top: nat, off: nat, n: nat)
    requires |strs| + 1 <= top <= |words|
  {
    && words[top - 1] == 0
    && forall k | n <= k < |strs| :: words[top - 1 - |strs| + k] == STACK_START + OffsetOf(strs, k, off)
  }

  ghost predicate TextsLaidFrom(bytes: seq<bv8>, strs: seq<Text>, off: nat, n: nat)
  {
    forall k | n <= k < |strs| :: TextLaid(bytes, strs[k], OffsetOf(strs, k, off))
  }

  lemma NothingLaid(words: seq<nat>, bytes: seq<bv8>, strs: seq<Text>, top: nat, off: nat)
    requires |strs| + 1 <= top <= |words| && words[top - 1] == 0
    ensures PointersLaidFrom(words, strs, top, off, |strs|) && TextsLaidFrom(bytes, strs, off, |strs|)
  {
  }

  lemma TotalFromAll(strs: seq<Text>)
    ensures Total(strs[|strs|..]) == 0 && Total(strs[0..]) == Total(strs)
  {
    assert strs[0..] == strs;
  }

  lemma LaidAll(words: seq<nat>, bytes: seq<bv8>, strs: seq<Text>, top: nat, off: nat)
    requires |strs| + 1 <= top <= |words|
    requires PointersLaidFrom(words, strs, top, off, 0) && TextsLaidFrom(bytes, strs, off, 0)
    ensures PointersLaid(words, strs, top, off) && TextsLaid(bytes, strs, off)
  {
  }

  /** One more string and its pointer leave those laid before in place. */
  lemma LaidOneMore(words: seq<nat>, words': seq<nat>, bytes: seq<bv8>, bytes': seq<bv8>, strs: seq<Text>,
                    top: nat, off: nat, n: nat)
    requires |strs| + 1 <= top <= |words| == |words'| && n < |strs| && |bytes| == |bytes'|
    requires PointersLaidFrom(words, strs, top, off, n + 1) && TextsLaidFrom(bytes, strs, off, n + 1)
    requires words' == words[top - 1 - |strs| + n := STACK_START + OffsetOf(strs, n, off)]
    requires TextLaid(bytes', strs[n], OffsetOf(strs, n, off))
    requires forall j | 0 <= j < OffsetOf(strs, n, off) && j < |bytes| :: bytes'[j] == bytes[j]
    ensures PointersLaidFrom(words', strs, top, off, n) && TextsLaidFrom(bytes', strs, off, n)
  {
    hide OffsetOf;
    TextOneMore(bytes, bytes', strs, off, n);
  }

  lemma TextOneMore(bytes: seq<bv8>, bytes': seq<bv8>, strs: seq<Text>, off: nat, n: nat)
    requires n < |strs| && |bytes| == |bytes'| && TextsLaidFrom(bytes, strs, off, n + 1)
    requires TextLaid(bytes', strs[n], OffsetOf(strs, n, off))
    requires forall j | 0 <= j < OffsetOf(strs, n, off) && j < |bytes| :: bytes'[j] == bytes[j]
    ensures TextsLaidFrom(bytes', strs, off, n)
  {
    forall k | n < k < |strs|
      ensures TextLaid(bytes', strs[k], OffsetOf(strs, k, off))
    {
      assert TextLaid(bytes, strs[k], OffsetOf(strs, k, off));
      TotalFrom(strs, k);
      TotalShrinks(strs, n + 1, k);
    }
  }

  /** The inner loop: a string and its terminator. */
  method CopyText(src: Text, bytes: array<bv8>, o: nat) returns (n: nat)
    requires o + |src| < bytes.Length
    modifies bytes
    ensures n == |src| + 1 && TextLaid(bytes[..], src, o)
    ensures forall j | 0 <= j < o || o + n <= j < bytes.Length :: bytes[j] == old(bytes[j])
  {
    n := 0;
    while n < |src|
      invariant n <= |src|
      invariant forall i | 0 <= i < n :: bytes[o + i] == src[i]
      invariant forall j | 0 <= j < o || o + n <= j < bytes.Length :: bytes[j] == old(bytes[j])
    {
      bytes[o + n] := src[n];
      n := n + 1;
    }
    bytes[o + n] := 0;
    n := n + 1;
  }

  /** The layout part of do_stack_vma: both pages and the stack pointer for which _start
      recovers the arguments. */
  method BuildStack(argv: seq<Text>, envp: seq<Text>) returns (words: array<nat>, bytes: array<bv8>, exec: nat)
    requires |argv| + |envp| + 3 <= WORDS && Total(argv) + Total(envp) <= PAGE
    ensures fresh(words) && fresh(bytes) && words.Length == WORDS && bytes.Length == PAGE
    ensures exec == StackPointer(|argv|, |envp|)
    ensures Start(Image(words[..], bytes[..]), exec) == Arguments(|argv|, argv, envp)
  {
    hide Start, PointersLaid, TextsLaid, Total;
    words := new nat[WORDS](_ => 0);
    bytes := new bv8[PAGE](_ => 0);
    var off := CopyParams(envp, WORDS, words, bytes, 0);
    ghost var words1, bytes1 := words[..], bytes[..];
    off := CopyParams(argv, WORDS - |envp| - 1, words, bytes, off);
    ghost var words2 := words[..];
    words[WORDS - (|envp| + |argv| + 2) - 1] := |argv|;
    exec := StackPointer(|argv|, |envp|);
    StillLaid(words1, words[..], bytes1, bytes[..], envp, WORDS, 0);
    StillLaid(words2, words[..], bytes[..], bytes[..], argv, WORDS - |envp| - 1, Total(envp));
    StartRecovers(Image(words[..], bytes[..]), argv, envp);
  }

  /** What was laid is untouched by writes elsewhere. */
  lemma StillLaid(words: seq<nat>, words': seq<nat>, bytes: seq<bv8>, bytes': seq<bv8>, strs: seq<Text>,
                  top: nat, off: nat)
    requires |words| == |words'| && |bytes| == |bytes'| && |strs| + 1 <= top <= |words|
    requires PointersLaid(words, strs, top, off) && TextsLaid(bytes, strs, off)
    requires forall j | top - 1 - |strs| <= j < top :: words'[j] == words[j]
    requires forall j | off <= j < off + Total(strs) && j < |bytes| :: bytes'[j] == bytes[j]
    ensures PointersLaid(words', strs, top, off) && TextsLaid(bytes', strs, off)
  {
    forall k | 0 <= k < |strs|
      ensures TextLaid(bytes', strs[k], OffsetOf(strs, k, off))
    {
      TotalFrom(strs, k);
      TotalShrinks(strs, 0, k);
      assert strs[0..] == strs;
      assert TextLaid(bytes, strs[k], OffsetOf(strs, k, off));
    }
  }
}

/**
 The initial stack: argument strings, auxiliary vector, environment, argument pointers and argc,
 written downwards into the top page.  A parser that reads upwards from the stack pointer gets the
 arguments back.
 */
module Stack {
  import opened Base

  const STACK_ALIGN: nat := 16
  const WORD: nat := 8

  // ------------------------------------------------------------------ words

  /** Little-endian bytes of `n`. */
  function Encode(n: nat, k: nat): (s: seq<byte>)
    ensures |s| == k
    decreases k
  {
    if k == 0 then [] else [(n % 256) as byte] + Encode(n / 256, k - 1)
  }

  function Decode(s: seq<byte>): nat
    decreases |s|
  {
    if s == [] then 0 else s[0] as nat + 256 * Decode(s[1..])
  }

  function Pow256(k: nat): (p: nat)
    ensures p > 0
  {
    if k == 0 then 1 else 256 * Pow256(k - 1)
  }

  lemma {:induction false} DecodeEncode(n: nat, k: nat)
    requires n < Pow256(k)
    ensures Decode(Encode(n, k)) == n
    decreases k
  {
    if k > 0 {
      DecodeEncode(n / 256, k - 1);
      assert Encode(n, k)[1..] == Encode(n / 256, k - 1);
    }
  }

  // ------------------------------------------------------------------ reading upwards

  function WordAt(s: seq<byte>, o: nat): nat
    requires o + WORD <= |s|
  {
    Decode(s[o..o + WORD])
  }

  /** Bytes up to the first NUL. */
  function CString(s: seq<byte>, o: nat): seq<byte>
    decreases |s| - o
  {
    if o >= |s| || s[o] == 0 then [] else [s[o]] + CString(s, o + 1)
  }

  datatype Parsed = Parsed(args: seq<seq<byte>>, env: seq<nat>, auxv: seq<(nat, nat)>)

  /** The `n` argument strings whose pointers start at `o`; `base` is the address of `s[0]`. */
  function ReadArgs(s: seq<byte>, base: nat, o: nat, n: nat): Option<seq<seq<byte>>>
    decreases n
  {
    if n == 0 then Some([])
    else if o + WORD > |s| || WordAt(s, o) < base then None
    else
      match ReadArgs(s, base, o + WORD, n - 1)
      case None => None
      case Some(rest) => Some([CString(s, WordAt(s, o) - base)] + rest)
  }

  /** Words up to a null. */
  function ReadEnv(s: seq<byte>, o: nat): Option<seq<nat>>
    decreases |s| - o
  {
    if o + WORD > |s| then None
    else if WordAt(s, o) == 0 then Some([])
    else
      match ReadEnv(s, o + WORD)
      case None => None
      case Some(rest) => Some([WordAt(s, o)] + rest)
  }

  /** Pairs up to and including the one whose key is AT_NULL. */
  function ReadAuxv(s: seq<byte>, o: nat): Option<seq<(nat, nat)>>
    decreases |s| - o
  {
    if o + 2 * WORD > |s| then None
    else
      var pair := (WordAt(s, o), WordAt(s, o + WORD));
      if pair.0 == 0 then Some([pair])
      else
        match ReadAuxv(s, o + 2 * WORD)
        case None => None
        case Some(rest) => Some([pair] + rest)
  }

  /** What a program sees that is started with its stack pointer at offset `o`. */
  function Parse(s: seq<byte>, base: nat, o: nat): Option<Parsed> {
    if o + WORD > |s| then None
    else
      var argc := WordAt(s, o);
      var args := ReadArgs(s, base, o + WORD, argc);
      var nullAt := o + WORD * (argc + 1);
      if args.None? || nullAt + WORD > |s| || WordAt(s, nullAt) != 0 then None
      else
        var env := ReadEnv(s, nullAt + WORD);
        if env.None? then None
        else
          var auxv := ReadAuxv(s, nullAt + WORD + WORD * (|env.value| + 1));
          if auxv.None? then None else Some(Parsed(args.value, env.value, auxv.value))
  }

  // ------------------------------------------------------------------ writing downwards

  /** Where an argument string goes, below offset `o`: room for a NUL, rounded down. */
  function ArgOffset(o: int, arg: seq<byte>): int {
    (o - |arg| - 1) / STACK_ALIGN * STACK_ALIGN
  }

  function ArgOffsets(o: int, args: seq<seq<byte>>): (offs: seq<int>)
    ensures |offs| == |args|
    decreases |args|
  {
    if args == [] then [] else [ArgOffset(o, args[0])] + ArgOffsets(ArgOffset(o, args[0]), args[1..])
  }

  /** The offset below the last argument string. */
  function Bottom(o: int, args: seq<seq<byte>>): int
    decreases |args|
  {
    if args == [] then o else Bottom(ArgOffset(o, args[0]), args[1..])
  }

  lemma {:induction false} BottomBelow(o: int, args: seq<seq<byte>>)
    ensures Bottom(o, args) <= o
    ensures args != [] ==> Bottom(o, args) % STACK_ALIGN == 0
    ensures forall i :: 0 <= i < |args| ==> Bottom(o, args) <= ArgOffsets(o, args)[i]
    decreases |args|
  {
    if args != [] {
      BottomBelow(ArgOffset(o, args[0]), args[1..]);
    }
  }

  function PutArgs(s: seq<byte>, o: nat, args: seq<seq<byte>>): (r: seq<byte>)
    requires o <= |s| && Bottom(o, args) >= 0
    ensures |r| == |s|
    decreases |args|
  {
    if args == [] then s
    else
      BottomBelow(ArgOffset(o, args[0]), args[1..]);
      PutArgs(Splice(s, ArgOffset(o, args[0]), args[0]), ArgOffset(o, args[0]), args[1..])
  }

  function Push(s: seq<byte>, o: nat, n: nat): (r: seq<byte>)
    requires WORD <= o <= |s|
    ensures |r| == |s|
  {
    Splice(s, o - WORD, Encode(n, WORD))
  }

  /** Words pushed in order, each below the one before. */
  function PushAll(s: seq<byte>, o: nat, ws: seq<nat>): (r: seq<byte>)
    requires WORD * |ws| <= o <= |s|
    ensures |r| == |s|
    decreases |ws|
  {
    if ws == [] then s
    else Push(PushAll(s, o, ws[..|ws| - 1]), o - WORD * (|ws| - 1), ws[|ws| - 1])
  }

  // ------------------------------------------------------------------ words read back

  function Rev<T>(s: seq<T>): (r: seq<T>)
    ensures |r| == |s|
    decreases |s|
  {
    if s == [] then [] else [s[|s| - 1]] + Rev(s[..|s| - 1])
  }

  lemma {:induction false} RevAppend<T>(a: seq<T>, b: seq<T>)
    ensures Rev(a + b) == Rev(b) + Rev(a)
    decreases |b|
  {
    if b == [] {
      assert a + b == a;
    } else {
      var pre := b[..|b| - 1];
      assert (a + b)[..|a + b| - 1] == a + pre;
      RevAppend(a, pre);
    }
  }

  lemma {:induction false} RevRev<T>(s: seq<T>)
    ensures Rev(Rev(s)) == s
    decreases |s|
  {
    if s != [] {
      var pre, x := s[..|s| - 1], s[|s| - 1];
      RevAppend([x], Rev(pre));
      RevOne(x);
      RevRev(pre);
    }
  }

  lemma RevOne<T>(x: T)
    ensures Rev([x]) == [x]
  {
    assert [x][..0] == [];
  }

  predicate Words64(ws: seq<nat>) {
    forall i :: 0 <= i < |ws| ==> ws[i] < Pow256(WORD)
  }

  /** The words `us` stand at `o`, upwards. */
  ghost predicate HasWords(s: seq<byte>, o: nat, us: seq<nat>)
    decreases |us|
  {
    if us == [] then o <= |s|
    else o + WORD <= |s| && WordAt(s, o) == us[0] && HasWords(s, o + WORD, us[1..])
  }

  lemma HasWordsCons(s: seq<byte>, o: nat, n: nat, us: seq<nat>)
    ensures HasWords(s, o, [n] + us) <==> o + WORD <= |s| && WordAt(s, o) == n && HasWords(s, o + WORD, us)
  {
    assert ([n] + us)[1..] == us;
  }

  lemma {:induction false} HasWordsSame(s: seq<byte>, r: seq<byte>, i: nat, o: nat, us: seq<nat>)
    requires HasWords(s, o, us) && |r| == |s| && i <= o && i <= |s| && r[i..] == s[i..]
    ensures HasWords(r, o, us)
    decreases |us|
  {
    if us != [] {
      WordSame(s, r, i, o);
      HasWordsSame(s, r, i, o + WORD, us[1..]);
    }
  }

  lemma WordSame(s: seq<byte>, r: seq<byte>, i: nat, o: nat)
    requires |r| == |s| && i <= o && o + WORD <= |s| && r[i..] == s[i..]
    ensures WordAt(r, o) == WordAt(s, o)
  {
    SliceOfSuffix(s, i, o);
    SliceOfSuffix(r, i, o);
  }

  lemma SliceOfSuffix(s: seq<byte>, i: nat, o: nat)
    requires i <= o && o + WORD <= |s|
    ensures s[o..o + WORD] == s[i..][o - i..o - i + WORD]
  {
  }

  lemma PushReads(s: seq<byte>, o: nat, n: nat)
    requires WORD <= o <= |s| && n < Pow256(WORD)
    ensures WordAt(Push(s, o, n), o - WORD) == n
  {
    assert Push(s, o, n)[o - WORD..o] == Encode(n, WORD);
    DecodeEncode(n, WORD);
  }

  /** Pushing leaves the bytes at and above the old stack pointer alone. */
  lemma {:induction false} PushAllAbove(s: seq<byte>, o: nat, ws: seq<nat>)
    requires WORD * |ws| <= o <= |s|
    ensures PushAll(s, o, ws)[o..] == s[o..]
    decreases |ws|
  {
    if ws != [] {
      PushAllAbove(s, o, ws[..|ws| - 1]);
      var r := PushAll(s, o, ws[..|ws| - 1]);
      PushAbove(r, o - WORD * (|ws| - 1), ws[|ws| - 1], o);
    }
  }

  lemma PushAbove(s: seq<byte>, o: nat, n: nat, i: nat)
    requires WORD <= o <= i <= |s|
    ensures Push(s, o, n)[i..] == s[i..]
  {
  }

  /** A word pushed onto words that stand at `o`. */
  lemma PushOnto(s: seq<byte>, o: nat, us: seq<nat>, n: nat)
    requires HasWords(s, o, us) && WORD <= o <= |s| && n < Pow256(WORD)
    ensures HasWords(Push(s, o, n), o - WORD, [n] + us)
  {
    hide HasWords, Push, WordAt;
    PushReads(s, o, n);
    PushAbove(s, o, n, o);
    HasWordsSame(s, Push(s, o, n), o, o, us);
    HasWordsCons(Push(s, o, n), o - WORD, n, us);
  }

  /** What was pushed is read upwards in reverse order. */
  lemma {:induction false} PushAllReads(s: seq<byte>, o: nat, ws: seq<nat>)
    requires WORD * |ws| <= o <= |s| && Words64(ws)
    ensures HasWords(PushAll(s, o, ws), o - WORD * |ws|, Rev<nat>(ws))
    decreases |ws|
  {
    hide HasWords, PushAll, Push, Rev;
    if ws == [] {
      PushNone(s, o);
    } else {
      var pre, w := ws[..|ws| - 1], ws[|ws| - 1];
      WordsBut(ws);
      hide Words64, Pow256;
      PushAllReads(s, o, pre);
      PushOnto(PushAll(s, o, pre), o - WORD * |pre|, Rev<nat>(pre), w);
      PushAllTurn(s, o, ws);
    }
  }

  lemma PushNone(s: seq<byte>, o: nat)
    requires o <= |s|
    ensures HasWords(PushAll(s, o, []), o, Rev<nat>([]))
  {
  }

  lemma WordsBut(ws: seq<nat>)
    requires ws != [] && Words64(ws)
    ensures ws[|ws| - 1] < Pow256(WORD) && Words64(ws[..|ws| - 1])
  {
    hide Pow256;
  }

  lemma PushAllTurn(s: seq<byte>, o: nat, ws: seq<nat>)
    requires ws != [] && WORD * |ws| <= o <= |s|
    ensures var pre, w := ws[..|ws| - 1], ws[|ws| - 1];
            Rev<nat>(ws) == [w] + Rev<nat>(pre) && PushAll(s, o, ws) == Push(PushAll(s, o, pre), o - WORD * |pre|, w)
  {
    hide Push;
  }

  lemma {:induction false} WordOf(s: seq<byte>, o: nat, us: seq<nat>, j: nat)
    requires HasWords(s, o, us) && j < |us|
    ensures o + WORD * j + WORD <= |s| && WordAt(s, o + WORD * j) == us[j]
    decreases j
  {
    if j > 0 {
      WordOf(s, o + WORD, us[1..], j - 1);
    }
  }

  lemma {:induction false} WordsSplit(s: seq<byte>, o: nat, us: seq<nat>, vs: seq<nat>)
    requires HasWords(s, o, us + vs)
    ensures HasWords(s, o, us) && HasWords(s, o + WORD * |us|, vs)
    decreases |us|
  {
    if us == [] {
      assert us + vs == vs;
      HasWordsFits(s, o, vs);
    } else {
      assert (us + vs)[1..] == us[1..] + vs;
      WordsSplit(s, o + WORD, us[1..], vs);
    }
  }

  lemma {:induction false} HasWordsFits(s: seq<byte>, o: nat, us: seq<nat>)
    requires HasWords(s, o, us)
    ensures o + WORD * |us| <= |s|
    decreases |us|
  {
    if us != [] { HasWordsFits(s, o + WORD, us[1..]); }
  }

  // ------------------------------------------------------------------ strings read back

  predicate NulFree(a: seq<byte>) {
    forall i :: 0 <= i < |a| ==> a[i] != 0
  }

  /** A NUL-terminated copy of `a` stands at `q`. */
  ghost predicate StringAt(s: seq<byte>, q: int, a: seq<byte>) {
    && 0 <= q && q + |a| < |s| && s[q + |a|] == 0
    && s[q..q + |a|] == a
  }

  lemma {:induction false} CStringReads(s: seq<byte>, q: nat, a: seq<byte>)
    requires StringAt(s, q, a) && NulFree(a)
    ensures CString(s, q) == a
    decreases |a|
  {
    if a != [] {
      assert s[q] == a[0] by { assert s[q..q + |a|][0] == s[q]; }
      assert s[q + 1..q + 1 + |a[1..]|] == a[1..];
      CStringReads(s, q + 1, a[1..]);
    }
  }

  /** Strings go below `o`, leave zeroes below the last one, and stay readable while others are added. */
  lemma {:induction false} PutArgsReads(s: seq<byte>, o: nat, args: seq<seq<byte>>)
    requires o <= |s| && Bottom(o, args) >= 0 && forall j :: 0 <= j < o ==> s[j] == 0
    ensures var r := PutArgs(s, o, args);
            && r[o..] == s[o..]
            && (forall i :: 0 <= i < |args| ==> StringAt(r, ArgOffsets(o, args)[i], args[i]))
    decreases |args|
  {
    if args != [] {
      var q := ArgOffset(o, args[0]);
      BottomBelow(q, args[1..]);
      var s1 := Splice(s, q, args[0]);
      PutArgsReads(s1, q, args[1..]);
      var r := PutArgs(s, o, args);
      assert r == PutArgs(s1, q, args[1..]);
      assert r[q..] == s1[q..];
      SuffixSame(r, s1, q, o);
      assert r[o..] == s[o..];
      assert StringAt(r, q, args[0]) by {
        FirstString(s, o, q, args[0]);
        SuffixString(r, s1, q, args[0]);
      }
    }
  }

  lemma SuffixSame(r: seq<byte>, s: seq<byte>, q: nat, o: nat)
    requires |r| == |s| && q <= o <= |s| && r[q..] == s[q..]
    ensures r[o..] == s[o..]
  {
    assert r[o..] == r[q..][o - q..] && s[o..] == s[q..][o - q..];
  }

  lemma FirstString(s: seq<byte>, o: nat, q: nat, a: seq<byte>)
    requires o <= |s| && q + |a| + 1 <= o && forall j :: 0 <= j < o ==> s[j] == 0
    ensures StringAt(Splice(s, q, a), q, a) && Splice(s, q, a)[o..] == s[o..]
  {
  }

  lemma SuffixString(r: seq<byte>, s: seq<byte>, q: nat, a: seq<byte>)
    requires |r| == |s| && q <= |s| && r[q..] == s[q..] && StringAt(s, q, a)
    ensures StringAt(r, q, a)
  {
    assert r[q + |a|] == r[q..][|a|] && s[q + |a|] == s[q..][|a|];
    assert r[q..q + |a|] == r[q..][..|a|] && s[q..q + |a|] == s[q..][..|a|];
  }

  // ------------------------------------------------------------------ the words of the stack

  /** The auxiliary vector in the order of its ordered map: key, value. */
  function AuxEntries(entry: nat, execfn: nat): seq<(nat, nat)> {
    [(0, 0), (6, PAGE_SIZE), (9, entry), (11, 0), (12, 0), (13, 0), (14, 0), (31, execfn)]
  }

  /** Value first, then key, for each entry. */
  function AuxPushes(es: seq<(nat, nat)>): (ws: seq<nat>)
    ensures |ws| == 2 * |es|
    decreases |es|
  {
    if es == [] then [] else AuxPushes(es[..|es| - 1]) + [es[|es| - 1].1, es[|es| - 1].0]
  }

  /** All words in the order in which they are pushed. */
  function Pushed(ptrs: seq<nat>, entry: nat): seq<nat>
    requires ptrs != []
  {
    var args := Rev<nat>(ptrs);
    AuxPushes(AuxEntries(entry, ptrs[0])) + [0] + [0] + args + [|ptrs|]
  }

  function Flat(es: seq<(nat, nat)>): (ws: seq<nat>)
    ensures |ws| == 2 * |es|
    decreases |es|
  {
    if es == [] then [] else [es[0].0, es[0].1] + Flat(es[1..])
  }

  /** Pushing value and key of each entry leaves key and value of each, in reverse order, upwards. */
  lemma {:induction false} AuxUpwards(es: seq<(nat, nat)>)
    ensures Rev<nat>(AuxPushes(es)) == Flat(Rev<(nat, nat)>(es))
    decreases |es|
  {
    if es != [] {
      var pre, e := es[..|es| - 1], es[|es| - 1];
      RevAppend(AuxPushes(pre), [e.1, e.0]);
      assert Rev([e.1, e.0]) == [e.0, e.1] by {
        assert [e.1, e.0][..1] == [e.1];
        RevOne(e.1);
      }
      AuxUpwards(pre);
      assert ([e] + Rev(pre))[1..] == Rev(pre);
    }
  }

  /** The same words as they stand in memory, from the stack pointer up. */
  function Upwards(ptrs: seq<nat>, aux: seq<(nat, nat)>): seq<nat> {
    [|ptrs|] + ptrs + [0] + [0] + Flat(aux)
  }

  lemma PushedUpwards(ptrs: seq<nat>, entry: nat)
    requires ptrs != []
    ensures Rev<nat>(Pushed(ptrs, entry)) == Upwards(ptrs, Rev(AuxEntries(entry, ptrs[0])))
  {
    var es := AuxEntries(entry, ptrs[0]);
    var a, zero, n := AuxPushes(es), [0 as nat], [|ptrs| as nat];
    var r := Rev<nat>(ptrs);
    hide AuxEntries, AuxPushes, Rev, Flat;
    AuxUpwards(es);
    RevOne(0);
    RevOne(|ptrs|);
    RevRev(ptrs);
    RevAppend(a + zero + zero + r, n);
    RevAppend(a + zero + zero, r);
    RevAppend(a + zero, zero);
    RevAppend(a, zero);
    assert n + (ptrs + (zero + (zero + Flat(Rev(es))))) == Upwards(ptrs, Rev(es));
  }

  // ------------------------------------------------------------------ parsing what was built

  /** Pointer `p` leads to a NUL-terminated copy of `a`. */
  ghost predicate PointsTo(s: seq<byte>, base: nat, p: nat, a: seq<byte>) {
    p >= base && NulFree(a) && StringAt(s, p - base, a)
  }

  lemma PointerParse(s: seq<byte>, base: nat, o: nat, ptrs: seq<nat>, a: seq<byte>)
    requires ptrs != [] && HasWords(s, o, ptrs) && PointsTo(s, base, ptrs[0], a)
    ensures o + WORD <= |s| && WordAt(s, o) >= base && CString(s, WordAt(s, o) - base) == a
    ensures HasWords(s, o + WORD, ptrs[1..])
  {
    hide WordAt, CString, StringAt, NulFree;
    CStringReads(s, ptrs[0] - base, a);
  }

  lemma ReadArgsTurn(s: seq<byte>, base: nat, o: nat, n: nat, a: seq<byte>, rest: seq<seq<byte>>)
    requires n > 0 && o + WORD <= |s| && WordAt(s, o) >= base && CString(s, WordAt(s, o) - base) == a
    requires ReadArgs(s, base, o + WORD, n - 1) == Some(rest)
    ensures ReadArgs(s, base, o, n) == Some([a] + rest)
  {
    hide WordAt, CString;
  }

  lemma {:induction false} ArgsParse(s: seq<byte>, base: nat, o: nat, ptrs: seq<nat>, args: seq<seq<byte>>)
    requires HasWords(s, o, ptrs) && |ptrs| == |args|
    requires forall j :: 0 <= j < |args| ==> PointsTo(s, base, ptrs[j], args[j])
    ensures ReadArgs(s, base, o, |args|) == Some(args)
    decreases |args|
  {
    if args != [] {
      PointerParse(s, base, o, ptrs, args[0]);
      hide HasWords, PointsTo, WordAt, CString, ReadArgs;
      forall j | 0 <= j < |args| - 1 ensures PointsTo(s, base, ptrs[1..][j], args[1..][j]) {
        assert PointsTo(s, base, ptrs[j + 1], args[j + 1]);
      }
      ArgsParse(s, base, o + WORD, ptrs[1..], args[1..]);
      ReadArgsTurn(s, base, o, |args|, args[0], args[1..]);
      assert args == [args[0]] + args[1..];
    }
  }

  /** Only the last key is AT_NULL. */
  predicate NullEnds(es: seq<(nat, nat)>) {
    es != [] && es[|es| - 1].0 == 0 && forall i :: 0 <= i < |es| - 1 ==> es[i].0 != 0
  }

  lemma {:induction false} AuxParse(s: seq<byte>, o: nat, es: seq<(nat, nat)>)
    requires HasWords(s, o, Flat(es)) && NullEnds(es)
    ensures ReadAuxv(s, o) == Some(es)
    decreases |es|
  {
    assert Flat(es) == [es[0].0, es[0].1] + Flat(es[1..]);
    assert |es| > 1 ==> es[0].0 != 0 && NullEnds(es[1..]);
    hide HasWords, Flat, WordAt;
    WordOf(s, o, Flat(es), 0);
    WordOf(s, o, Flat(es), 1);
    assert es == [es[0]] + es[1..];
    if |es| > 1 {
      WordsSplit(s, o, [es[0].0, es[0].1], Flat(es[1..]));
      AuxParse(s, o + 2 * WORD, es[1..]);
    } else {
      assert es == [(WordAt(s, o), WordAt(s, o + WORD))];
    }
  }

  /** A stack with these words and strings parses to the arguments, no environment and the vector. */
  lemma WordsParse(s: seq<byte>, base: nat, o: nat, ptrs: seq<nat>, aux: seq<(nat, nat)>, args: seq<seq<byte>>)
    requires HasWords(s, o, Upwards(ptrs, aux)) && |ptrs| == |args| && NullEnds(aux)
    requires forall j :: 0 <= j < |args| ==> PointsTo(s, base, ptrs[j], args[j])
    ensures Parse(s, base, o) == Some(Parsed(args, [], aux))
  {
    hide HasWords, Upwards, Flat, PointsTo, NullEnds, ReadArgs, ReadEnv, ReadAuxv, WordAt, Parse;
    var n := |ptrs|;
    SplitUpwards(s, o, ptrs, aux);
    assert args[0..] == args;
    ArgsParse(s, base, o + WORD, ptrs, args);
    AuxParse(s, o + WORD * (n + 3), aux);
    ParseIs(s, base, o, n, args, aux);
  }

  /** The pieces of a stack with no environment, put together. */
  lemma ParseIs(s: seq<byte>, base: nat, o: nat, n: nat, args: seq<seq<byte>>, aux: seq<(nat, nat)>)
    requires o + WORD * (n + 3) <= |s| && WordAt(s, o) == n
    requires WordAt(s, o + WORD * (n + 1)) == 0 && WordAt(s, o + WORD * (n + 2)) == 0
    requires ReadArgs(s, base, o + WORD, n) == Some(args) && ReadAuxv(s, o + WORD * (n + 3)) == Some(aux)
    ensures Parse(s, base, o) == Some(Parsed(args, [], aux))
  {
    assert ReadEnv(s, o + WORD * (n + 2)) == Some([]);
    hide ReadArgs, ReadEnv, ReadAuxv, WordAt;
  }

  lemma SplitUpwards(s: seq<byte>, o: nat, ptrs: seq<nat>, aux: seq<(nat, nat)>)
    requires HasWords(s, o, Upwards(ptrs, aux))
    ensures var n := |ptrs|;
            && o + WORD * (n + 3) <= |s| && WordAt(s, o) == n
            && HasWords(s, o + WORD, ptrs)
            && WordAt(s, o + WORD * (n + 1)) == 0 && WordAt(s, o + WORD * (n + 2)) == 0
            && HasWords(s, o + WORD * (n + 3), Flat(aux))
  {
    var n := |ptrs|;
    var tail := [0] + ([0] + Flat(aux));
    assert Upwards(ptrs, aux) == [n] + (ptrs + tail);
    hide HasWords, Upwards, Flat, WordAt;
    HasWordsCons(s, o, n, ptrs + tail);
    WordsSplit(s, o + WORD, ptrs, tail);
    HasWordsCons(s, o + WORD * (n + 1), 0, [0] + Flat(aux));
    HasWordsCons(s, o + WORD * (n + 2), 0, Flat(aux));
    HasWordsFits(s, o + WORD * (n + 3), Flat(aux));
  }

  // ------------------------------------------------------------------ the top page

  /** Words that follow the strings: argc, pointers, two nulls and eight auxiliary pairs. */
  function WordCount(args: seq<seq<byte>>): nat {
    |args| + 19
  }

  /** Strings and words fit into the top page. */
  predicate StackFits(args: seq<seq<byte>>) {
    args != [] && Bottom(PAGE_SIZE, args) >= WORD * WordCount(args)
  }

  /** Offset of the stack pointer in the top page. */
  function SpOffset(args: seq<seq<byte>>): nat
    requires StackFits(args)
  {
    Bottom(PAGE_SIZE, args) - WORD * WordCount(args)
  }

  function Pointers(base: nat, offs: seq<int>): (ptrs: seq<nat>)
    requires forall i :: 0 <= i < |offs| ==> offs[i] >= 0
    ensures |ptrs| == |offs| && forall i :: 0 <= i < |offs| ==> ptrs[i] == base + offs[i]
  {
    seq(|offs|, i requires 0 <= i < |offs| => base + offs[i])
  }

  function ArgPointers(base: nat, args: seq<seq<byte>>): (ptrs: seq<nat>)
    requires StackFits(args)
    ensures |ptrs| == |args| && forall i :: 0 <= i < |args| ==> ptrs[i] == base + ArgOffsets(PAGE_SIZE, args)[i]
  {
    BottomBelow(PAGE_SIZE, args);
    Pointers(base, ArgOffsets(PAGE_SIZE, args))
  }

  /** The top page as the code leaves it. */
  function StackPage(base: nat, entry: nat, args: seq<seq<byte>>): (p: Page)
    requires StackFits(args)
  {
    BottomBelow(PAGE_SIZE, args);
    PushAll(PutArgs(ZeroPage(), PAGE_SIZE, args), Bottom(PAGE_SIZE, args), Pushed(ArgPointers(base, args), entry))
  }

  lemma {:induction false} OffsetsBelow(o: int, args: seq<seq<byte>>)
    ensures forall i :: 0 <= i < |args| ==> ArgOffsets(o, args)[i] < o
    decreases |args|
  {
    if args != [] {
      OffsetsBelow(ArgOffset(o, args[0]), args[1..]);
    }
  }

  lemma RevSame(ptrs: seq<nat>)
    ensures forall x :: x in Rev<nat>(ptrs) ==> x in ptrs
    decreases |ptrs|
  {
    if ptrs != [] { RevSame(ptrs[..|ptrs| - 1]); }
  }

  lemma PushedWords(base: nat, entry: nat, args: seq<seq<byte>>)
    requires StackFits(args) && base + PAGE_SIZE <= Pow256(WORD) && entry < Pow256(WORD)
    ensures Words64(Pushed(ArgPointers(base, args), entry))
  {
    var ptrs := ArgPointers(base, args);
    var ws := Pushed(ptrs, entry);
    OffsetsBelow(PAGE_SIZE, args);
    BottomBelow(PAGE_SIZE, args);
    assert forall x :: x in ptrs ==> x < Pow256(WORD);
    RevSame(ptrs);
    assert |ptrs| < PAGE_SIZE;
    AuxWords(entry, ptrs[0]);
    hide AuxPushes, AuxEntries, Rev, ArgPointers, Pow256, StackFits;
    var a, r := AuxPushes(AuxEntries(entry, ptrs[0])), Rev<nat>(ptrs);
    forall i | 0 <= i < |ws| ensures ws[i] < Pow256(WORD) {
      if i < |a| {
        assert ws[i] == a[i] && a[i] in a;
      } else if |a| + 2 <= i < |a| + 2 + |r| {
        assert ws[i] == r[i - |a| - 2] && r[i - |a| - 2] in r;
        assert ws[i] in ptrs;
      } else {
        assert ws[i] == 0 || ws[i] == |ptrs|;
        assert |ptrs| < Pow256(WORD);
      }
    }
  }

  lemma AuxWords(entry: nat, execfn: nat)
    requires entry < Pow256(WORD) && execfn < Pow256(WORD)
    ensures PAGE_SIZE < Pow256(WORD)
    ensures forall x :: x in AuxPushes(AuxEntries(entry, execfn)) ==> x < Pow256(WORD)
  {
    assert Pow256(8) == 256 * 256 * 256 * 256 * Pow256(4);
    var es := AuxEntries(entry, execfn);
    AuxPushesFrom(es);
  }

  lemma {:induction false} AuxPushesFrom(es: seq<(nat, nat)>)
    ensures forall x :: x in AuxPushes(es) ==> exists i :: 0 <= i < |es| && (x == es[i].0 || x == es[i].1)
    decreases |es|
  {
    if es != [] {
      var pre := es[..|es| - 1];
      AuxPushesFrom(pre);
      forall x | x in AuxPushes(es) ensures exists i :: 0 <= i < |es| && (x == es[i].0 || x == es[i].1) {
        if x in AuxPushes(pre) {
          var i :| 0 <= i < |pre| && (x == pre[i].0 || x == pre[i].1);
          assert pre[i] == es[i];
        } else {
          assert x == es[|es| - 1].0 || x == es[|es| - 1].1;
        }
      }
    }
  }

  /** The auxiliary vector as a program reads it. */
  function AuxVector(entry: nat, execfn: nat): seq<(nat, nat)> {
    [(31, execfn), (14, 0), (13, 0), (12, 0), (11, 0), (9, entry), (6, PAGE_SIZE), (0, 0)]
  }

  lemma AuxVectorIs(entry: nat, execfn: nat)
    ensures Rev(AuxEntries(entry, execfn)) == AuxVector(entry, execfn) && NullEnds(AuxVector(entry, execfn))
    ensures AuxVector(entry, execfn) ==
            [(31, execfn), (14, 0), (13, 0), (12, 0), (11, 0), (9, entry), (6, 4096), (0, 0)]
  {
    var es := AuxEntries(entry, execfn);
    assert es == [es[0]] + [es[1]] + [es[2]] + [es[3]] + [es[4]] + [es[5]] + [es[6]] + [es[7]];
    RevAppend([es[0]] + [es[1]] + [es[2]] + [es[3]] + [es[4]] + [es[5]] + [es[6]], [es[7]]);
    RevAppend([es[0]] + [es[1]] + [es[2]] + [es[3]] + [es[4]] + [es[5]], [es[6]]);
    RevAppend([es[0]] + [es[1]] + [es[2]] + [es[3]] + [es[4]], [es[5]]);
    RevAppend([es[0]] + [es[1]] + [es[2]] + [es[3]], [es[4]]);
    RevAppend([es[0]] + [es[1]] + [es[2]], [es[3]]);
    RevAppend([es[0]] + [es[1]], [es[2]]);
    RevAppend([es[0]], [es[1]]);
    forall i | 0 <= i < 8 ensures Rev([es[i]]) == [es[i]] { RevOne(es[i]); }
    hide Rev;
    assert Rev(es) == [es[7]] + ([es[6]] + ([es[5]] + ([es[4]] + ([es[3]] + ([es[2]] + ([es[1]] + [es[0]]))))));
  }

  /** In the finished page every argument pointer leads to its argument. */
  lemma PointerLeads(base: nat, entry: nat, args: seq<seq<byte>>, j: nat)
    requires StackFits(args) && j < |args| && NulFree(args[j])
    ensures PointsTo(StackPage(base, entry, args), base, ArgPointers(base, args)[j], args[j])
  {
    hide Pushed, PushAll, PutArgs, ArgOffsets, Bottom, StringAt, NulFree, ArgPointers, StackFits;
    BottomBelow(PAGE_SIZE, args);
    OffsetsBelow(PAGE_SIZE, args);
    PagePieces(base, entry, args);
    var b, q := Bottom(PAGE_SIZE, args), ArgOffsets(PAGE_SIZE, args)[j];
    var s, ws := PutArgs(ZeroPage(), PAGE_SIZE, args), Pushed(ArgPointers(base, args), entry);
    PutArgsReads(ZeroPage(), PAGE_SIZE, args);
    PushAllAbove(s, b, ws);
    StringAbove(PushAll(s, b, ws), s, b, q, args[j]);
  }

  lemma PagePieces(base: nat, entry: nat, args: seq<seq<byte>>)
    requires StackFits(args)
    ensures args != [] && Bottom(PAGE_SIZE, args) >= 0
    ensures WORD * |Pushed(ArgPointers(base, args), entry)| <= Bottom(PAGE_SIZE, args) <= PAGE_SIZE
  {
    BottomBelow(PAGE_SIZE, args);
  }

  lemma StringAbove(r: seq<byte>, s: seq<byte>, b: nat, q: nat, a: seq<byte>)
    requires |r| == |s| && b <= q <= |s| && r[b..] == s[b..] && StringAt(s, q, a)
    ensures StringAt(r, q, a)
  {
    SuffixSame(r, s, b, q);
    SuffixString(r, s, q, a);
  }

  /** Parsing undoes building: the arguments in order, an empty environment and the auxiliary vector. */
  lemma ParseUndoesBuild(base: nat, entry: nat, args: seq<seq<byte>>)
    requires StackFits(args) && base + PAGE_SIZE <= Pow256(WORD) && entry < Pow256(WORD)
    requires forall i :: 0 <= i < |args| ==> NulFree(args[i])
    ensures Parse(StackPage(base, entry, args), base, SpOffset(args)) ==
            Some(Parsed(args, [], AuxVector(entry, ArgPointers(base, args)[0])))
  {
    var ptrs := ArgPointers(base, args);
    BottomBelow(PAGE_SIZE, args);
    assert |Pushed(ptrs, entry)| == WordCount(args);
    PushedWords(base, entry, args);
    PushAllReads(PutArgs(ZeroPage(), PAGE_SIZE, args), Bottom(PAGE_SIZE, args), Pushed(ptrs, entry));
    assert HasWords(StackPage(base, entry, args), SpOffset(args), Rev<nat>(Pushed(ptrs, entry)));
    hide HasWords, StackPage, Pushed, Parse, Rev, AuxVector, AuxEntries, PointsTo, Upwards, NullEnds, Bottom,
         PutArgs, PushAll,
         Words64, NulFree;
    PushedUpwards(ptrs, entry);
    AuxVectorIs(entry, ptrs[0]);
    forall j | 0 <= j < |args| ensures PointsTo(StackPage(base, entry, args), base, ptrs[j], args[j]) {
      PointerLeads(base, entry, args, j);
    }
    WordsParse(StackPage(base, entry, args), base, SpOffset(args), ptrs, AuxVector(entry, ptrs[0]), args);
  }

  // ------------------------------------------------------------------ where things are, and nothing else

  lemma OffsetsTurn(o: int, args: seq<seq<byte>>)
    requires args != []
    ensures var q := ArgOffset(o, args[0]);
            && ArgOffsets(o, args) == [q] + ArgOffsets(q, args[1..]) && Bottom(o, args) == Bottom(q, args[1..])
            && (|args| == 1 ==> Bottom(o, args) == q)
  {
    assert |args| == 1 ==> args[1..] == [];
  }

  lemma OffsetIs(o: int, arg: seq<byte>)
    ensures var q, need := ArgOffset(o, arg), |arg| + 1; q % 16 == 0 && q + need <= o < q + need + 16
  {
  }

  /** Each string starts at the highest multiple of 16 that leaves room for it and a NUL below the one before. */
  lemma {:induction false} ArgsPacked(o: int, args: seq<seq<byte>>, i: nat)
    requires i < |args|
    ensures var offs := ArgOffsets(o, args);
            var above, need := if i == 0 then o else offs[i - 1], |args[i]| + 1;
            && offs[i] % 16 == 0 && offs[i] + need <= above < offs[i] + need + 16
            && Bottom(o, args) == offs[|args| - 1]
    decreases |args|
  {
    var q := ArgOffset(o, args[0]);
    OffsetsTurn(o, args);
    OffsetIs(o, args[0]);
    hide ArgOffset, ArgOffsets, Bottom;
    if |args| > 1 {
      assert i > 0 ==> args[1..][i - 1] == args[i];
      ArgsPacked(q, args[1..], if i > 0 then i - 1 else 0);
    }
  }

  predicate InString(offs: seq<int>, args: seq<seq<byte>>, j: nat)
    requires |offs| == |args|
  {
    exists i :: 0 <= i < |args| && offs[i] <= j < offs[i] + |args[i]|
  }

  lemma InStringTail(offs: seq<int>, args: seq<seq<byte>>, j: nat)
    requires |offs| == |args| > 0 && InString(offs[1..], args[1..], j)
    ensures InString(offs, args, j)
  {
    var i :| 0 <= i < |args[1..]| && offs[1..][i] <= j < offs[1..][i] + |args[1..][i]|;
    assert offs[i + 1] <= j < offs[i + 1] + |args[i + 1]|;
  }

  lemma {:induction false} PutArgsElsewhere(s: seq<byte>, o: nat, args: seq<seq<byte>>, j: nat)
    requires o <= |s| && Bottom(o, args) >= 0 && j < |s| && !InString(ArgOffsets(o, args), args, j)
    ensures PutArgs(s, o, args)[j] == s[j]
    decreases |args|
  {
    if args != [] {
      var q, offs := ArgOffset(o, args[0]), ArgOffsets(o, args);
      BottomBelow(q, args[1..]);
      assert offs[0] == q && offs[1..] == ArgOffsets(q, args[1..]);
      assert Splice(s, q, args[0])[j] == s[j];
      assert !InString(offs[1..], args[1..], j) by {
        if InString(offs[1..], args[1..], j) { InStringTail(offs, args, j); }
      }
      PutArgsElsewhere(Splice(s, q, args[0]), q, args[1..], j);
    }
  }

  lemma {:induction false} PushAllElsewhere(s: seq<byte>, o: nat, ws: seq<nat>, j: nat)
    requires WORD * |ws| <= o <= |s| && j < |s| && !(o - WORD * |ws| <= j < o)
    ensures PushAll(s, o, ws)[j] == s[j]
    decreases |ws|
  {
    if ws != [] { PushAllElsewhere(s, o, ws[..|ws| - 1], j); }
  }

  /** Beside the strings and the words between stack pointer and strings, the page is zero. */
  lemma ZeroElsewhere(base: nat, entry: nat, args: seq<seq<byte>>, j: nat)
    requires StackFits(args) && j < PAGE_SIZE && !InString(ArgOffsets(PAGE_SIZE, args), args, j)
    requires !(SpOffset(args) <= j < ArgOffsets(PAGE_SIZE, args)[|args| - 1])
    ensures SpOffset(args) == ArgOffsets(PAGE_SIZE, args)[|args| - 1] - 8 * (|args| + 19)
    ensures StackPage(base, entry, args)[j] == 0
  {
    ArgsPacked(PAGE_SIZE, args, 0);
    BottomBelow(PAGE_SIZE, args);
    var ws := Pushed(ArgPointers(base, args), entry);
    assert |ws| == WordCount(args);
    PutArgsElsewhere(ZeroPage(), PAGE_SIZE, args, j);
    hide PutArgs, PushAll, Pushed, ArgOffsets, Bottom, InString;
    PushAllElsewhere(PutArgs(ZeroPage(), PAGE_SIZE, args), Bottom(PAGE_SIZE, args), ws, j);
  }

  /** The stack pointer is 16-byte aligned exactly when the number of arguments is odd. */
  lemma SpAlignment(end: nat, args: seq<seq<byte>>)
    requires StackFits(args) && end % PAGE_SIZE == 0 && end >= PAGE_SIZE
    ensures (end - PAGE_SIZE + SpOffset(args)) % 16 == 0 <==> |args| % 2 == 1
  {
    BottomBelow(PAGE_SIZE, args);
  }
}

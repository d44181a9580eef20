/** strtok, and the loop that calls it until it returns null. */
module Tokenizer {
  const NUL: char := '\0'
  const NULL: int := -1

  // ----- one call, on the characters of memory -----

  /** The first position from p on that holds NUL or a delimiter; `end` holds NUL. */
  function Stop(m: seq<char>, p: nat, end: nat, delims: string): (k: nat)
    requires p <= end < |m| && m[end] == NUL
    ensures p <= k <= end && (m[k] == NUL || m[k] in delims)
    ensures forall i :: p <= i < k ==> m[i] != NUL && m[i] !in delims
    decreases end - p
  {
    if m[p] == NUL || m[p] in delims then p else Stop(m, p + 1, end, delims)
  }

  /** A returned token (or NULL), the new context, and memory. */
  datatype Outcome = Outcome(tok: int, context: int, m: seq<char>)

  /** strtok(str, delims, &context); a null str means: go on from the context. */
  function Strtok(m: seq<char>, str: int, context: int, end: nat, delims: string): (o: Outcome)
    requires end < |m| && m[end] == NUL
    requires if str == NULL then 0 < context <= end else 0 <= str <= end
    ensures o.tok != NULL ==> 0 <= o.tok <= end && 0 < o.context <= end && |o.m| == |m| && o.m[end] == NUL
  {
    var p := if str == NULL then context else str;
    var k := Stop(m, p, end, delims);
    if m[k] != NUL then Outcome(p, k + 1, m[k := NUL])
    else if str == NULL && m[context - 1] == NUL then Outcome(p, k, m)
    else Outcome(NULL, context, m)
  }

  method StrtokInPlace(a: array<char>, str: int, delims: string, context: int, ghost end: nat)
    returns (tok: int, context': int)
    requires end < a.Length && a[end] == NUL && NUL !in delims
    requires if str == NULL then 0 < context <= end else 0 <= str <= end
    modifies a
    ensures Outcome(tok, context', a[..]) == Strtok(old(a[..]), str, context, end, delims)
  {
    var cont := str == NULL;
    var p := if cont then context else str;
    ghost var k := Stop(a[..], p, end, delims);
    var i := 0;
    while true
      invariant 0 <= i && p + i <= k && a[..] == old(a[..])
      decreases k - (p + i)
    {
      var c := a[p + i];
      if c == NUL {
        if cont {
          if a[context - 1] == NUL { return p, p + i; }
        }
        return NULL, context;
      }
      var j := 0;
      while j < |delims|
        invariant 0 <= j <= |delims| && forall l :: 0 <= l < j ==> delims[l] != c
        invariant a[..] == old(a[..])
      {
        if c == delims[j] {
          a[p + i] := NUL;
          return p, p + i + 1;
        }
        j := j + 1;
      }
      i := i + 1;
    }
  }

  // ----- the pieces of a string -----

  ghost predicate Text(m: seq<char>, p: int, end: int) {
    0 <= p <= end < |m| && m[end] == NUL && forall i :: p <= i < end ==> m[i] != NUL
  }

  /** m[p..end] cut at every delimiter. */
  ghost function Pieces(m: seq<char>, p: nat, end: nat, delims: string): seq<string>
    requires Text(m, p, end)
    decreases end - p
  {
    var k := Stop(m, p, end, delims);
    if k == end then [m[p..end]] else [m[p..k]] + Pieces(m, k + 1, end, delims)
  }

  /** The delimiters of m[p..end], in order. */
  function Cuts(m: seq<char>, p: nat, end: nat, delims: string): string
    requires p <= end <= |m|
    decreases end - p
  {
    if p == end then [] else (if m[p] in delims then [m[p]] else []) + Cuts(m, p + 1, end, delims)
  }

  /** Pieces and cuts put together again in turn. */
  function Rejoin(pieces: seq<string>, cuts: string): string
    requires |pieces| == |cuts| + 1
  {
    if cuts == [] then pieces[0] else pieces[0] + [cuts[0]] + Rejoin(pieces[1..], cuts[1..])
  }

  lemma {:induction false} NoCuts(m: seq<char>, p: nat, k: nat, end: nat, delims: string)
    requires p <= k <= end <= |m| && forall i :: p <= i < k ==> m[i] !in delims
    ensures Cuts(m, p, end, delims) == Cuts(m, k, end, delims)
    decreases k - p
  {
    if p < k { NoCuts(m, p + 1, k, end, delims); }
  }

  /** A string has one piece more than it has delimiters, and pieces and delimiters rebuild it. */
  lemma {:induction false} PiecesRejoin(m: seq<char>, p: nat, end: nat, delims: string)
    requires Text(m, p, end) && NUL !in delims
    ensures |Pieces(m, p, end, delims)| == |Cuts(m, p, end, delims)| + 1
    ensures Rejoin(Pieces(m, p, end, delims), Cuts(m, p, end, delims)) == m[p..end]
    decreases end - p
  {
    var k := Stop(m, p, end, delims);
    NoCuts(m, p, k, end, delims);
    if k < end {
      PiecesRejoin(m, k + 1, end, delims);
      assert m[p..end] == m[p..k] + [m[k]] + m[k + 1..end];
      assert Pieces(m, p, end, delims)[1..] == Pieces(m, k + 1, end, delims);
      assert Cuts(m, p, end, delims)[1..] == Cuts(m, k + 1, end, delims);
    }
  }

  lemma FirstPiece(m: seq<char>, p: nat, end: nat, delims: string, pieces: seq<string>)
    requires Text(m, p, end) && pieces == Pieces(m, p, end, delims)
    ensures var k := Stop(m, p, end, delims);
            && pieces != [] && pieces[0] == m[p..k]
            && if k == end then |pieces| == 1 else pieces[1..] == Pieces(m, k + 1, end, delims)
  {
  }

  // ----- repeated calls -----

  /** The delimiters before c are overwritten, and nothing else is. */
  ghost predicate Overwritten(m: seq<char>, cur: seq<char>, c: int, delims: string) {
    |cur| == |m| && forall i :: 0 <= i < |m| ==> cur[i] == if i < c && m[i] in delims then NUL else m[i]
  }

  lemma {:induction false} SameStop(m: seq<char>, cur: seq<char>, p: nat, end: nat, delims: string)
    requires p <= end < |m| && |cur| == |m| && m[end] == NUL && forall i :: p <= i <= end ==> cur[i] == m[i]
    ensures Stop(cur, p, end, delims) == Stop(m, p, end, delims)
    decreases end - p
  {
    if p < end && m[p] != NUL && m[p] !in delims { SameStop(m, cur, p + 1, end, delims); }
  }

  /** Where the context stands after the piece that starts at p has been returned. */
  function After(m: seq<char>, p: nat, end: nat, delims: string): nat
    requires p <= end < |m| && m[end] == NUL
  {
    var k := Stop(m, p, end, delims);
    if k == end then end else k + 1
  }

  /** A call with null, made after the piece at p: the next piece if there is one; null if that was the
      last piece and it is not empty; and the same empty piece again and again if it is. */
  lemma NextCall(m: seq<char>, cur: seq<char>, p: nat, end: nat, delims: string)
    requires Text(m, 0, end) && NUL !in delims && p <= end && 0 < After(m, p, end, delims)
    requires Overwritten(m, cur, After(m, p, end, delims), delims)
    requires p == end ==> 0 < end && m[end - 1] in delims
    ensures var k, c := Stop(m, p, end, delims), After(m, p, end, delims);
            cur[end] == NUL && Strtok(cur, NULL, c, end, delims) ==
                               if k < end then
                                 var k' := Stop(m, c, end, delims);
                                 Outcome(c, After(m, c, end, delims), if k' == end then cur else cur[k' := NUL])
                               else if m[end - 1] in delims then Outcome(end, end, cur)
                               else Outcome(NULL, end, cur)
  {
    SameStop(m, cur, After(m, p, end, delims), end, delims);
  }

  /** After n + 1 calls with null, from the given context on, or fewer if null comes back before. */
  function NullCalls(m: seq<char>, context: int, end: nat, delims: string, n: nat): Outcome
    requires end < |m| && m[end] == NUL && 0 < context <= end
    decreases n
  {
    var o := Strtok(m, NULL, context, end, delims);
    if n == 0 || o.tok == NULL then o else NullCalls(o.m, o.context, end, delims, n - 1)
  }

  /** After n + 1 calls, the first of them with the string at 0, or fewer if null comes back before. */
  function Calls(m: seq<char>, end: nat, delims: string, n: nat): Outcome
    requires end < |m| && m[end] == NUL
  {
    var o := Strtok(m, 0, 0, end, delims);
    if n == 0 || o.tok == NULL then o else NullCalls(o.m, o.context, end, delims, n - 1)
  }

  /** The piece at p has just been returned, and its delimiter and all before it are overwritten. */
  ghost predicate Reached(m: seq<char>, cur: seq<char>, p: nat, end: nat, delims: string) {
    && Text(m, 0, end) && NUL !in delims && p <= end && 0 < end
    && Overwritten(m, cur, After(m, p, end, delims), delims) && cur[end] == NUL
    && (p == end ==> m[end - 1] in delims)
  }

  /** The next call with null returns the piece at `c`. */
  lemma Advance(m: seq<char>, cur: seq<char>, p: nat, end: nat, delims: string, n: nat)
    returns (c: nat, next: seq<char>)
    requires Reached(m, cur, p, end, delims) && (Stop(m, p, end, delims) < end || m[end - 1] in delims)
    ensures Reached(m, next, c, end, delims)
    ensures c == if Stop(m, p, end, delims) < end then Stop(m, p, end, delims) + 1 else end
    ensures NullCalls(cur, After(m, p, end, delims), end, delims, n) ==
            if n == 0 then Outcome(c, After(m, c, end, delims), next)
            else NullCalls(next, After(m, c, end, delims), end, delims, n - 1)
  {
    NextCall(m, cur, p, end, delims);
    c := After(m, p, end, delims);
    var k := Stop(m, c, end, delims);
    next := if k == end then cur else cur[k := NUL];
  }

  /** On a string that ends in a delimiter no call after the piece at p returns null, and from the call that
      returns the last piece on they all return the empty word at the end. */
  lemma {:induction false} NeverEnds(m: seq<char>, cur: seq<char>, p: nat, end: nat, delims: string, n: nat)
    requires Reached(m, cur, p, end, delims) && m[end - 1] in delims
    ensures var o := NullCalls(cur, After(m, p, end, delims), end, delims, n);
            && o.tok != NULL
            && (|Pieces(m, p, end, delims)| <= n + 2 ==>
                  o.tok == o.context == end && Overwritten(m, o.m, end, delims))
    decreases n
  {
    var c, next := Advance(m, cur, p, end, delims, n);
    if n > 0 { NeverEnds(m, next, c, end, delims, n - 1); }
    PieceCount(m, p, end, delims);
    PieceCount(m, c, end, delims);
  }

  lemma PieceCount(m: seq<char>, p: nat, end: nat, delims: string)
    requires Text(m, p, end)
    ensures var k, n := Stop(m, p, end, delims), |Pieces(m, p, end, delims)|;
            0 < n && if k == end then n == 1 else n == 1 + |Pieces(m, k + 1, end, delims)| > 1
  {
    FirstPiece(m, p, end, delims, Pieces(m, p, end, delims));
    var k := Stop(m, p, end, delims);
    if k < end { FirstPiece(m, k + 1, end, delims, Pieces(m, k + 1, end, delims)); }
  }

  /** On any other string null comes back when all pieces have been returned. */
  lemma {:induction false} EndsAfter(m: seq<char>, cur: seq<char>, p: nat, end: nat, delims: string, n: nat)
    requires Reached(m, cur, p, end, delims) && m[end - 1] !in delims && n == |Pieces(m, p, end, delims)| - 1
    ensures NullCalls(cur, After(m, p, end, delims), end, delims, n).tok == NULL
    decreases n
  {
    PieceCount(m, p, end, delims);
    if Stop(m, p, end, delims) < end {
      var c, next := Advance(m, cur, p, end, delims, n);
      EndsAfter(m, next, c, end, delims, n - 1);
    } else {
      NextCall(m, cur, p, end, delims);
    }
  }

  lemma FirstCall(m: seq<char>, end: nat, delims: string)
    requires Text(m, 0, end) && NUL !in delims
    ensures var o, k := Strtok(m, 0, 0, end, delims), Stop(m, 0, end, delims);
            if k == end then o.tok == NULL
            else o.tok == 0 && o.context == After(m, 0, end, delims) && Reached(m, o.m, 0, end, delims)
  {
  }

  /** The calls that begin with the string itself come to a null exactly when the string does not end in a
      delimiter. */
  lemma LoopEnds(m: seq<char>, end: nat, delims: string)
    requires Text(m, 0, end) && NUL !in delims
    ensures (exists n: nat :: Calls(m, end, delims, n).tok == NULL) <==> end == 0 || m[end - 1] !in delims
  {
    var o := Strtok(m, 0, 0, end, delims);
    FirstCall(m, end, delims);
    if end > 0 && m[end - 1] in delims {
      forall n: nat ensures Calls(m, end, delims, n).tok != NULL { CallsGoOn(m, end, delims, n); }
    } else if Stop(m, 0, end, delims) == end {
      assert Calls(m, end, delims, 0).tok == NULL;
    } else {
      PieceCount(m, 0, end, delims);
      EndsAfter(m, o.m, 0, end, delims, |Pieces(m, 0, end, delims)| - 1);
      assert Calls(m, end, delims, |Pieces(m, 0, end, delims)|).tok == NULL;
    }
  }

  /** On a string that ends in a delimiter no call returns null, and from the last piece on each returns the
      same empty word. */
  lemma CallsGoOn(m: seq<char>, end: nat, delims: string, n: nat)
    requires Text(m, 0, end) && NUL !in delims && 0 < end && m[end - 1] in delims
    ensures var o := Calls(m, end, delims, n);
            && o.tok != NULL
            && (|Pieces(m, 0, end, delims)| <= n + 1 ==>
                  o.tok == o.context == end && Overwritten(m, o.m, end, delims))
  {
    var o := Strtok(m, 0, 0, end, delims);
    FirstCall(m, end, delims);
    PieceCount(m, 0, end, delims);
    if n > 0 { NeverEnds(m, o.m, 0, end, delims, n - 1); }
  }

  /** "a," is such a string. */
  lemma NeverEndsExample(n: nat)
    ensures Text("a,\0", 0, 2) && Calls("a,\0", 2, ",", n + 1).tok == 2
  {
    PieceCount("a,\0", 0, 2, ",");
    PieceCount("a,\0", 2, 2, ",");
    assert Stop("a,\0", 0, 2, ",") == Stop("a,\0", 1, 2, ",") == 1;
    CallsGoOn("a,\0", 2, ",", n + 1);
  }

  /** Reads the NUL-terminated text at p. */
  method ReadText(a: array<char>, p: nat, ghost end: nat) returns (s: string)
    requires end < a.Length && Text(a[..], p, end)
    ensures s == a[p..end]
  {
    s := [];
    var i := p;
    while a[i] != NUL
      invariant p <= i <= end && s == a[p..i]
      decreases end - i
    {
      s := s + [a[i]];
      i := i + 1;
    }
  }

  /** The loop of lishell's main: one call with the string, then calls with null until null comes back.
      On a string that does not end in a delimiter it stops. With a delimiter it yields every piece, and each
      delimiter is overwritten by NUL; without one the first call already gives null, and it yields nothing. */
  method Collect(a: array<char>, delims: string, ghost end: nat) returns (words: seq<string>)
    requires end < a.Length && Text(a[..], 0, end) && NUL !in delims
    requires end == 0 || a[end - 1] !in delims
    modifies a
    ensures words == if Stop(old(a[..]), 0, end, delims) == end then [] else Pieces(old(a[..]), 0, end, delims)
    ensures Overwritten(old(a[..]), a[..], end, delims)
  {
    ghost var m := a[..];
    var tok, context := FirstWord(a, end, delims);
    words := [];
    assert Pieces(m, 0, end, delims)[0..] == Pieces(m, 0, end, delims);
    while tok != NULL
      invariant if Stop(m, 0, end, delims) == end then tok == NULL && words == [] && a[..] == m
                else Midway(m, a[..], tok, context, words, end, delims)
      decreases tok != NULL, end - tok
    {
      words, tok, context := Turn(a, tok, context, words, m, end, delims);
    }
  }

  /** The words so far are the pieces before the one at `tok`; all of them once `tok` is null. */
  ghost predicate Midway(m: seq<char>, cur: seq<char>, tok: int, context: int, words: seq<string>, end: nat,
                         delims: string)
    requires Text(m, 0, end)
  {
    && Overwritten(m, cur, context, delims)
    && if tok == NULL then words == Pieces(m, 0, end, delims) && context == end
       else
         && 0 <= tok < end && context == After(m, tok, end, delims)
         && words <= Pieces(m, 0, end, delims)
         && Pieces(m, 0, end, delims)[|words|..] == Pieces(m, tok, end, delims)
  }

  /** One turn of the loop: keeps the word at `tok` and asks for the next one. */
  method Turn(a: array<char>, tok: int, context: int, words: seq<string>, ghost m: seq<char>, ghost end: nat,
              delims: string)
    returns (words': seq<string>, tok': int, context': int)
    requires 0 < end < a.Length && Text(m, 0, end) && NUL !in delims && tok != NULL && m[end - 1] !in delims
    requires Midway(m, a[..], tok, context, words, end, delims)
    modifies a
    ensures Midway(m, a[..], tok', context', words', end, delims) && (tok' == NULL || tok < tok' < end)
  {
    ghost var rest := Pieces(m, 0, end, delims)[|words|..];
    FirstPiece(m, tok, end, delims, rest);
    var text := ReadPiece(a, tok, context, end, m, delims);
    words' := words + [text];
    assert |rest| > 1 ==> Pieces(m, 0, end, delims)[|words'|..] == rest[1..];
    tok', context' := NextWord(a, context, m, tok, end, delims);
  }

  /** The call with the string itself. */
  method FirstWord(a: array<char>, ghost end: nat, delims: string) returns (tok: int, context: int)
    requires end < a.Length && Text(a[..], 0, end) && NUL !in delims
    modifies a
    ensures var m := old(a[..]);
            if Stop(m, 0, end, delims) == end then tok == NULL && a[..] == m
            else tok == 0 && context == After(m, 0, end, delims) && Overwritten(m, a[..], context, delims)
  {
    tok, context := StrtokInPlace(a, 0, delims, 0, end);
  }

  /** The call with null that the loop makes after the piece at p. */
  method NextWord(a: array<char>, context: int, ghost m: seq<char>, ghost p: nat, ghost end: nat, delims: string)
    returns (tok: int, context': int)
    requires p < end < a.Length && Text(m, 0, end) && NUL !in delims && m[end - 1] !in delims
    requires context == After(m, p, end, delims) && Overwritten(m, a[..], context, delims)
    modifies a
    ensures var k := Stop(m, p, end, delims);
            if k == end then tok == NULL && context' == context == end
            else tok == k + 1 < end && context' == After(m, k + 1, end, delims)
    ensures Overwritten(m, a[..], context', delims)
  {
    NextCall(m, a[..], p, end, delims);
    tok, context' := StrtokInPlace(a, NULL, delims, context, end);
  }

  /** The piece at p, which strtok has just returned. */
  method ReadPiece(a: array<char>, p: nat, context: int, ghost end: nat, ghost m: seq<char>, ghost delims: string)
    returns (s: string)
    requires end < a.Length && Text(m, 0, end) && p <= end && NUL !in delims
    requires context == After(m, p, end, delims) && Overwritten(m, a[..], context, delims)
    ensures s == m[p..Stop(m, p, end, delims)]
  {
    ghost var k := Stop(m, p, end, delims);
    s := ReadText(a, p, k);
    assert a[p..k] == m[p..k];
  }
}

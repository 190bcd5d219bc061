/** `libze_util_replace_string`: global search and replace through an exactly sized work buffer. */
module ReplaceString {
  import opened CString

  const SIZE_MODULUS: nat := 0x1_0000_0000_0000_0000   // size_t is 64 bits wide
  const INT_MAX: nat := 0x7FFF_FFFF

  /** The value a `size_t` expression takes: unsigned wrap-around. */
  function SizeT(x: int): nat { x % SIZE_MODULUS }

  /** Leftmost, non-overlapping replacement of `pat` by `rep`. */
  function ReplaceAll(line: string, pat: string, rep: string): string
    requires pat != ""
    decreases |line|
  {
    match StrStr(line, pat, 0)
    case None => line
    case Some(i) => line[..i] + rep + ReplaceAll(line[i + |pat|..], pat, rep)
  }

  /** How many times `ReplaceAll` replaces. */
  function Occurrences(line: string, pat: string): nat
    requires pat != ""
    decreases |line|
  {
    match StrStr(line, pat, 0)
    case None => 0
    case Some(i) => 1 + Occurrences(line[i + |pat|..], pat)
  }

  // ---------------------------------------------------------------- what ReplaceAll means

  function Join(ps: seq<string>, sep: string): string
    requires ps != []
  {
    if |ps| == 1 then ps[0] else ps[0] + sep + Join(ps[1..], sep)
  }

  /** Pieces cut at leftmost occurrences: `pat` occurs in no piece, and not earlier across a cut. */
  ghost predicate LeftmostPieces(ps: seq<string>, pat: string) {
    && ps != []
    && (forall i :: 0 <= i < |ps| - 1 ==> StrStr(ps[i] + pat, pat, 0) == Some(|ps[i]|))
    && StrStr(ps[|ps| - 1], pat, 0) == None
  }

  lemma AtInHead(line: string, head: string, pat: string, j: nat)
    requires head <= line && j + |pat| <= |head|
    ensures At(line, pat, j) <==> At(head, pat, j)
  {
    assert line[j..j + |pat|] == head[j..j + |pat|];
  }

  /** An occurrence that ends the prefix `head` is the first of the line if and only if it is the first of `head`. */
  lemma FirstOccurrenceInHead(line: string, head: string, pat: string, n: nat)
    requires pat != "" && |head| == n + |pat| && head <= line && At(head, pat, n)
    ensures StrStr(line, pat, 0) == Some(n) <==> StrStr(head, pat, 0) == Some(n)
  {
    StrStrIsLeftmost(line, pat, 0);
    StrStrIsLeftmost(head, pat, 0);
    forall j | 0 <= j <= n ensures At(line, pat, j) <==> At(head, pat, j) {
      AtInHead(line, head, pat, j);
    }
  }

  /** Any leftmost cutting of the line determines the result: the replacement is joined instead. */
  lemma {:induction false} PiecesDetermineReplacement(line: string, pat: string, rep: string, ps: seq<string>)
    requires pat != "" && LeftmostPieces(ps, pat) && Join(ps, pat) == line
    ensures ReplaceAll(line, pat, rep) == Join(ps, rep)
    decreases |ps|
  {
    if |ps| > 1 {
      var n := |ps[0]|;
      var tail := Join(ps[1..], pat);
      assert line == ps[0] + pat + tail;
      StrStrIsLeftmost(ps[0] + pat, pat, 0);
      FirstOccurrenceInHead(line, ps[0] + pat, pat, n);
      assert line[n + |pat|..] == tail;
      assert line[..n] == ps[0];
      PiecesDetermineReplacement(tail, pat, rep, ps[1..]);
    }
  }

  lemma PiecePrepended(piece: string, rest: seq<string>, pat: string)
    requires LeftmostPieces(rest, pat) && StrStr(piece + pat, pat, 0) == Some(|piece|)
    ensures LeftmostPieces([piece] + rest, pat)
  {
    var ps := [piece] + rest;
    forall i | 0 <= i < |ps| - 1 ensures StrStr(ps[i] + pat, pat, 0) == Some(|ps[i]|) {
      if i > 0 {
        assert ps[i] == rest[i - 1];
      }
    }
  }

  lemma JoinPrepended(piece: string, rest: seq<string>, sep: string)
    requires rest != []
    ensures Join([piece] + rest, sep) == piece + sep + Join(rest, sep)
  {
    assert ([piece] + rest)[1..] == rest;
  }

  /** Such a cutting always exists, with one cut for each replacement. */
  lemma {:induction false} ReplacementHasPieces(line: string, pat: string, rep: string) returns (ps: seq<string>)
    requires pat != ""
    ensures LeftmostPieces(ps, pat) && |ps| == Occurrences(line, pat) + 1
    ensures Join(ps, pat) == line && Join(ps, rep) == ReplaceAll(line, pat, rep)
    decreases |line|
  {
    match StrStr(line, pat, 0)
    case None => ps := [line];
    case Some(n) =>
      StrStrIsLeftmost(line, pat, 0);
      var rest := ReplacementHasPieces(line[n + |pat|..], pat, rep);
      ps := [line[..n]] + rest;
      var head := line[..n] + pat;
      assert At(line, pat, n) && line == head + line[n + |pat|..];
      FirstOccurrenceInHead(line, head, pat, n);
      PiecePrepended(line[..n], rest, pat);
      JoinPrepended(line[..n], rest, pat);
      JoinPrepended(line[..n], rest, rep);
  }

  lemma {:induction false} ReplacementLength(line: string, pat: string, rep: string)
    requires pat != ""
    ensures |ReplaceAll(line, pat, rep)| == |line| + (|rep| - |pat|) * Occurrences(line, pat)
    ensures Occurrences(line, pat) <= |line|
    decreases |line|
  {
    match StrStr(line, pat, 0)
    case None =>
    case Some(n) =>
      var rest := line[n + |pat|..];
      ReplacementLength(rest, pat, rep);
      assert (|rep| - |pat|) * (1 + Occurrences(rest, pat)) == (|rep| - |pat|) + (|rep| - |pat|) * Occurrences(rest, pat);
  }

  lemma ReplacementIsCStr(line: string, pat: string, rep: string)
    requires pat != "" && IsCStr(line) && IsCStr(rep)
    ensures IsCStr(ReplaceAll(line, pat, rep))
    decreases |line|
  {
    match StrStr(line, pat, 0)
    case None =>
    case Some(n) => ReplacementIsCStr(line[n + |pat|..], pat, rep);
  }

  /** The work buffer size as the code computes it, every operation wrapping. */
  function BufSize(line: string, pat: string, rep: string): nat
    requires pat != ""
  {
    SizeT(SizeT(|line| + SizeT(SizeT(|rep| - |pat|) * Occurrences(line, pat))) + 1)
  }

  lemma WrapSum(a: int, b: int)
    ensures SizeT(SizeT(a) + b) == SizeT(a + b)
  {
    var q := a / SIZE_MODULUS;
    assert a == q * SIZE_MODULUS + SizeT(a);
  }

  lemma WrapProduct(d: int, c: nat)
    ensures SizeT(SizeT(d) * c) == SizeT(d * c)
    decreases c
  {
    if c > 0 {
      WrapProduct(d, c - 1);
      WrapSum(SizeT(d) * (c - 1), SizeT(d));
      WrapSum(d * (c - 1), SizeT(d));
      WrapSum(d, d * (c - 1));
      assert SizeT(d) * c == SizeT(d) * (c - 1) + SizeT(d);
      assert d * c == d * (c - 1) + d;
    } else {
      assert SizeT(d) * c == 0 == d * c;
    }
  }

  lemma WrapSize(n: nat, d: int, c: nat)
    ensures SizeT(SizeT(n + SizeT(SizeT(d) * c)) + 1) == SizeT(n + d * c + 1)
  {
    WrapProduct(d, c);
    WrapSum(d * c, n);
    WrapSum(n + d * c, 1);
  }

  lemma WrapBelowModulus(x: nat)
    ensures SizeT(x) == x <==> x < SIZE_MODULUS
  {
  }

  /** The wrapped size is the exact result size, also when `rep` is the shorter one; and it is so
      precisely while that size fits in a `size_t`. */
  lemma BufSizeIsExact(line: string, pat: string, rep: string)
    requires pat != "" && |rep| < SIZE_MODULUS && |pat| < SIZE_MODULUS
    ensures BufSize(line, pat, rep) == |ReplaceAll(line, pat, rep)| + 1
            <==> |ReplaceAll(line, pat, rep)| + 1 < SIZE_MODULUS
  {
    ReplacementLength(line, pat, rep);
    var d, c := |rep| - |pat|, Occurrences(line, pat);
    WrapSize(|line|, d, c);
    WrapBelowModulus(|line| + d * c + 1);
  }

  // ---------------------------------------------------------------- the imperative routine

  /** The counting loop: each round searches on after the last occurrence. */
  method CountReplacements(line: string, toReplace: string) returns (count: nat)
    requires toReplace != ""
    ensures count == Occurrences(line, toReplace)
  {
    var insertLocation := 0;
    count := 0;
    var replaceLoc := StrStr(line, toReplace, 0);
    while replaceLoc.Some?
      invariant 0 <= insertLocation <= |line|
      invariant replaceLoc == StrStr(line[insertLocation..], toReplace, 0)
      invariant count + Occurrences(line[insertLocation..], toReplace) == Occurrences(line, toReplace)
      decreases |line| - insertLocation
    {
      ghost var here := line[insertLocation..];
      insertLocation := insertLocation + replaceLoc.value + |toReplace|;
      assert line[insertLocation..] == here[replaceLoc.value + |toReplace|..];
      replaceLoc := StrStr(line[insertLocation..], toReplace, 0);
      count := count + 1;
    }
  }

  /** One round of the filling loop: the text between replacements, then the replacement. */
  method FillOne(resultBuf: array<char>, resultEnd: nat, between: string, rep: string) returns (newEnd: nat)
    requires resultEnd + |between| + |rep| < resultBuf.Length
    modifies resultBuf
    ensures newEnd == resultEnd + |between| + |rep|
    ensures resultBuf[..newEnd] == old(resultBuf[..resultEnd]) + between + rep
  {
    CopyTo(resultBuf, resultEnd, between);
    newEnd := resultEnd + |between|;
    ghost var soFar := resultBuf[..newEnd];
    assert soFar == old(resultBuf[..resultEnd]) + between;
    var bufLeft := resultBuf.Length - newEnd;
    var n := StrLCpyAt(resultBuf, newEnd, rep, bufLeft);
    if n >= bufLeft {
      assert false;      // the length failure of the filling loop
    }
    newEnd := newEnd + |rep|;
    assert resultBuf[..newEnd] == soFar + rep;
  }

  /** After the loop: the text behind the last replacement, up to the last byte of the buffer. */
  method FillRemainder(resultBuf: array<char>, resultEnd: nat, remainder: string)
    requires resultEnd + |remainder| + 1 == resultBuf.Length
    modifies resultBuf
    ensures resultBuf[..resultBuf.Length - 1] == old(resultBuf[..resultEnd]) + remainder
    ensures resultBuf[resultBuf.Length - 1] == '\0'
  {
    var bufLeft := resultBuf.Length - resultEnd;
    var n := StrLCpyAt(resultBuf, resultEnd, remainder, bufLeft);
    if n >= bufLeft {
      assert false;      // the length failure after the loop
    }
    assert resultBuf[..resultBuf.Length - 1] == resultBuf[..resultEnd] + resultBuf[resultEnd..resultBuf.Length - 1];
  }

  /** One replacement moves text from the remainder of the line to the finished result. */
  lemma ReplaceStep(done: string, here: string, pat: string, rep: string, i: nat, rest: string)
    requires pat != "" && StrStr(here, pat, 0) == Some(i) && rest == here[i + |pat|..]
    ensures done + ReplaceAll(here, pat, rep) == (done + here[..i] + rep) + ReplaceAll(rest, pat, rep)
    ensures Occurrences(here, pat) == 1 + Occurrences(rest, pat)
  {
  }

  /** The filling loop and the copy of the remainder: the work buffer is filled to its last byte. */
  method FillResult(line: string, toReplace: string, rep: string, occurrences: nat, resultBuf: array<char>)
    requires toReplace != "" && occurrences == Occurrences(line, toReplace)
    requires resultBuf.Length == |ReplaceAll(line, toReplace, rep)| + 1
    modifies resultBuf
    ensures resultBuf[..resultBuf.Length - 1] == ReplaceAll(line, toReplace, rep)
    ensures resultBuf[resultBuf.Length - 1] == '\0'
  {
    var count, resultEnd, loc := occurrences, 0, 0;
    ghost var done, rest := "", ReplaceAll(line, toReplace, rep);
    assert line[loc..] == line;
    while count > 0
      invariant 0 <= loc <= |line|
      invariant count == Occurrences(line[loc..], toReplace)
      invariant rest == ReplaceAll(line[loc..], toReplace, rep)
      invariant done + rest == ReplaceAll(line, toReplace, rep)
      invariant resultEnd == |done| <= resultBuf.Length && resultBuf[..resultEnd] == done
    {
      var here := line[loc..];
      var between := StrStr(here, toReplace, 0).value;
      ReplaceStep(done, here, toReplace, rep, between, line[loc + between + |toReplace|..]);
      done := done + here[..between] + rep;
      rest := ReplaceAll(line[loc + between + |toReplace|..], toReplace, rep);
      assert resultBuf.Length == |done| + |rest| + 1;
      resultEnd := FillOne(resultBuf, resultEnd, here[..between], rep);
      loc := loc + between + |toReplace|;
      count := count - 1;
    }
    FillRemainder(resultBuf, resultEnd, line[loc..]);
  }

  /** `replacement == None` is the NULL pointer; `mallocOk` says whether the work buffer is obtained. */
  method Replace(toReplace: string, replacement: Option<string>, lineLength: nat, line: string,
                 lineReplaced: array<char>, mallocOk: bool)
    returns (ret: Status)
    requires IsCStr(toReplace) && IsCStr(line) && (replacement.Some? ==> IsCStr(replacement.value))
    requires |line| <= INT_MAX && |toReplace| < SIZE_MODULUS
    requires replacement.Some? ==> |replacement.value| < SIZE_MODULUS
    requires toReplace != "" ==>
               |ReplaceAll(line, toReplace, if replacement.Some? then replacement.value else "")| + 1 < SIZE_MODULUS
    modifies lineReplaced
    ensures var rep := if replacement.Some? then replacement.value else "";
            var result := if toReplace == "" then line else ReplaceAll(line, toReplace, rep);
            if toReplace != "" && |line| >= lineLength then
              ret == MaxPathLen && lineReplaced[..] == old(lineReplaced[..])
            else if toReplace != "" && !mallocOk then
              ret == NoMem && lineReplaced[..] == old(lineReplaced[..])
            else
              && ret == (if |result| < lineReplaced.Length then Success else MaxPathLen)
              && lineReplaced[..] == StrLCpy(old(lineReplaced[..]), result)
  {
    var n;
    if |toReplace| == 0 {
      n := StrLCpyInto(lineReplaced, line);
      return if n >= lineReplaced.Length then MaxPathLen else Success;
    }
    var rep := if replacement.Some? then replacement.value else "";
    if |line| >= lineLength {
      return MaxPathLen;
    }

    var count := CountReplacements(line, toReplace);
    var bufSize := SizeOfResult(line, toReplace, rep, count);
    if !mallocOk {
      return NoMem;
    }
    var resultBuf := new char[bufSize];
    FillResult(line, toReplace, rep, count, resultBuf);
    ReplacementIsCStr(line, toReplace, rep);
    ghost var result := ReplaceAll(line, toReplace, rep);
    FilledHolds(resultBuf[..], result);
    n := StrLen(resultBuf, 0, result);
    n := StrLCpyInto(lineReplaced, resultBuf[..n]);
    return if n >= lineReplaced.Length then MaxPathLen else Success;
  }

  /** The size of the work buffer, in unsigned arithmetic. */
  method SizeOfResult(line: string, toReplace: string, rep: string, count: nat) returns (bufSize: nat)
    requires toReplace != "" && |rep| < SIZE_MODULUS && |toReplace| < SIZE_MODULUS
    requires count == Occurrences(line, toReplace) && |ReplaceAll(line, toReplace, rep)| + 1 < SIZE_MODULUS
    ensures bufSize == |ReplaceAll(line, toReplace, rep)| + 1
  {
    BufSizeIsExact(line, toReplace, rep);
    bufSize := SizeT(SizeT(|line| + SizeT(SizeT(|rep| - |toReplace|) * count)) + 1);
  }

  lemma FilledHolds(a: seq<char>, s: string)
    requires |a| == |s| + 1 && a[..|s|] == s && a[|s|] == '\0' && IsCStr(s)
    ensures Holds(a, s)
  {
    forall i | 0 <= i < |s| ensures a[i] == s[i] != '\0' {
      assert a[..|s|][i] == a[i];
    }
  }
}

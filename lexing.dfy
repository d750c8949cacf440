/**
 * What reading an expression string yields: the operation table, the character classes,
 * digit runs, parenthesis depth, and the node sequence a left-to-right scan produces.
 */
module Lexing {
  import opened Results
  import opened MachineInt
  import opened Nodes

  /** The operation table: the only four characters that name an operation. */
  const OperationPrototypes: map<char, OpKind> := map['+' := Add, '-' := Sub, '*' := Mul, '/' := Div]

  predicate IsDigit(c: char) {
    '0' <= c <= '9'
  }

  predicate IsScobe(c: char) {
    c == '(' || c == ')'
  }

  function DigitValue(c: char): (n: nat)
    requires IsDigit(c)
    ensures n < 10
  {
    c as int - '0' as int
  }

  predicate AllDigits(d: string) {
    forall k :: 0 <= k < |d| ==> IsDigit(d[k])
  }

  /** The base-10 value of a string of digits, read most significant digit first. */
  function DigitsValue(d: string): nat
    requires AllDigits(d)
  {
    if d == [] then 0 else DigitsValue(d[..|d| - 1]) * 10 + DigitValue(d[|d| - 1])
  }

  /** The canonical decimal spelling of a natural number: the reference for `DigitsValue`. */
  function Decimal(n: nat): (d: string)
    ensures |d| > 0 && AllDigits(d)
  {
    var last := ['0' + (n % 10) as char];
    if n < 10 then last else Decimal(n / 10) + last
  }

  /** Reading the decimal spelling of `n` gives back `n`. */
  lemma {:induction false} DecimalRoundTrip(n: nat)
    ensures DigitsValue(Decimal(n)) == n
  {
    var d := Decimal(n);
    assert d[..|d| - 1] == if n < 10 then [] else Decimal(n / 10);
    if n >= 10 {
      DecimalRoundTrip(n / 10);
    }
  }

  /** `int.Parse` on a digit string: its value, or a failure when it exceeds the largest 32-bit integer. */
  function ParseInt(digits: string): (r: Result<Int32>)
    requires |digits| > 0 && AllDigits(digits)
    ensures r.Success? <==> DigitsValue(digits) <= MaxInt32
    ensures r.Success? ==> r.value as int == DigitsValue(digits)
    ensures r.Failure? ==> r.error == NumberTooLarge
  {
    var n := DigitsValue(digits);
    if n <= MaxInt32 then Success(n as Int32) else Failure(NumberTooLarge)
  }

  /** Number of times `c` occurs in `s`. */
  function Occurrences(s: string, c: char): nat {
    if s == [] then 0 else Occurrences(s[..|s| - 1], c) + (if s[|s| - 1] == c then 1 else 0)
  }

  /** Opening minus closing parentheses in `s`; neither kept non-negative nor required to end at zero. */
  function Depth(s: string): int {
    Occurrences(s, '(') - Occurrences(s, ')')
  }

  lemma DepthStep(s: string, i: nat)
    requires i < |s|
    ensures Depth(s[..i + 1]) == Depth(s[..i]) + (if s[i] == '(' then 1 else if s[i] == ')' then -1 else 0)
  {
    assert s[..i + 1][..i] == s[..i];
  }

  /** The end of the maximal digit run starting at `p`: the first non-digit at or after `p`. */
  function RunEnd(s: string, p: nat): (e: nat)
    requires p <= |s|
    ensures p <= e <= |s|
    ensures forall k :: p <= k < e ==> IsDigit(s[k])
    ensures e == |s| || !IsDigit(s[e])
    decreases |s| - p
  {
    if p < |s| && IsDigit(s[p]) then RunEnd(s, p + 1) else p
  }

  /** Any position reached over digits only and stopped at a non-digit or the end is the run's end. */
  lemma {:induction false} RunEndIsFirstNonDigit(s: string, p: nat, i: nat)
    requires p <= i <= |s|
    requires forall k :: p <= k < i ==> IsDigit(s[k])
    requires i == |s| || !IsDigit(s[i])
    ensures RunEnd(s, p) == i
    decreases i - p
  {
    if p < i {
      RunEndIsFirstNonDigit(s, p + 1, i);
    }
  }

  /** The number whose digit run starts at `p`, before its depth is added. */
  function NumberAt(s: string, p: nat): (r: Result<Token>)
    requires p < |s| && IsDigit(s[p])
    ensures r.Success? <==> DigitsValue(s[p..RunEnd(s, p)]) <= MaxInt32
    ensures r.Success? ==> r.value.Number? && r.value.depth == 0
    ensures r.Success? ==> r.value.value as int == DigitsValue(s[p..RunEnd(s, p)])
    ensures r.Failure? ==> r.error == NumberTooLarge
  {
    var e := RunEnd(s, p);
    match ParseInt(s[p..e])
    case Success(v) => Success(Number(v, 0))
    case Failure(err) => Failure(err)
  }

  /**
   * The operation the character at `index` names, at depth `scobes`; an unknown character fails.
   * A fresh prototype has depth 0, so adding `scobes` to it gives the token built here directly.
   */
  function GetOperation(s: string, index: nat, scobes: int): (r: Result<Token>)
    requires index < |s|
    ensures r.Success? <==> s[index] in {'+', '-', '*', '/'}
    ensures r.Failure? ==> r.error == UnknownSymbol(s[index])
    ensures r.Success? ==> r.value.Operation? && r.value.depth == scobes
    ensures r.Success? ==> (r.value.kind.Priority() == 1 <==> s[index] in {'+', '-'})
  {
    var symbol := s[index];
    if symbol in OperationPrototypes then Success(Operation(OperationPrototypes[symbol], scobes))
    else Failure(UnknownSymbol(symbol))
  }

  /** The node read at `index` with depth `scobes`: a digit run's number, else an operation. */
  function ReadToken(s: string, index: nat, scobes: int): (r: Result<Token>)
    requires index < |s|
    ensures r.Success? ==> r.value.depth == scobes
    ensures r.Success? ==> (r.value.Number? <==> IsDigit(s[index]))
    ensures r.Failure? ==> r.error == (if IsDigit(s[index]) then NumberTooLarge else UnknownSymbol(s[index]))
  {
    if IsDigit(s[index]) then
      match NumberAt(s, index)
      case Success(number) => Success(Number(number.value, scobes))
      case Failure(err) => Failure(err)
    else
      GetOperation(s, index, scobes)
  }

  /**
   * What a read yields beyond `ReadToken`'s own contract: a digit starts the number of its maximal run,
   * which fails only when the run's value exceeds the largest 32-bit integer; any other character is an operation.
   */
  lemma ReadTokenFacts(s: string, index: nat, scobes: int)
    requires index < |s|
    ensures var r := ReadToken(s, index, scobes);
      && (IsDigit(s[index]) ==> (r.Success? <==> DigitsValue(s[index..RunEnd(s, index)]) <= MaxInt32))
      && (r.Success? && r.value.Number? ==> r.value.value as int == DigitsValue(s[index..RunEnd(s, index)]))
      && (!IsDigit(s[index]) ==> r == GetOperation(s, index, scobes))
  {
  }

  /** One past the last character the node read at `p` consumes. */
  function TokenEnd(s: string, p: nat): (e: nat)
    requires p < |s|
    ensures p < e <= |s|
  {
    if IsDigit(s[p]) then RunEnd(s, p) else p + 1
  }

  /** The scan reads a node at `p`: not a parenthesis, and not inside a digit run begun earlier. */
  predicate IsScanStart(s: string, p: nat)
    requires p < |s|
  {
    !IsScobe(s[p]) && (p == 0 || !IsDigit(s[p - 1]) || !IsDigit(s[p]))
  }

  /** The node read at `p`, tagged with the depth of everything before it. */
  function ScanAt(s: string, p: nat): Result<Token>
    requires p < |s|
  {
    ReadToken(s, p, Depth(s[..p]))
  }

  /** The scan stops at `p` with an error. */
  predicate Offending(s: string, p: nat)
    requires p < |s|
  {
    IsScanStart(s, p) && ScanAt(s, p).Failure?
  }

  /** The first position at or after `p` where the scan fails, if any. */
  function FirstOffence(s: string, p: nat): (r: Option<nat>)
    requires p <= |s|
    ensures r.None? <==> forall q :: p <= q < |s| ==> !Offending(s, q)
    ensures r.Some? ==> p <= r.value < |s| && Offending(s, r.value)
    ensures r.Some? ==> forall q :: p <= q < r.value ==> !Offending(s, q)
    decreases |s| - p
  {
    if p == |s| then None
    else if Offending(s, p) then Some(p)
    else FirstOffence(s, p + 1)
  }

  /** The positions below `n` where the scan reads a node, in increasing order. */
  function ScanStarts(s: string, n: nat): seq<nat>
    requires n <= |s|
  {
    if n == 0 then []
    else ScanStarts(s, n - 1) + (if IsScanStart(s, n - 1) then [n - 1] else [])
  }

  /** The scan starts below `n` are exactly the positions below `n` that are scan starts, each once and ascending. */
  lemma {:induction false} ScanStartsAreOrdered(s: string, n: nat)
    requires n <= |s|
    ensures forall k :: 0 <= k < |ScanStarts(s, n)| ==> ScanStarts(s, n)[k] < n && IsScanStart(s, ScanStarts(s, n)[k])
    ensures forall k, l :: 0 <= k < l < |ScanStarts(s, n)| ==> ScanStarts(s, n)[k] < ScanStarts(s, n)[l]
    ensures forall p :: 0 <= p < n && IsScanStart(s, p) ==> p in ScanStarts(s, n)
  {
    if n > 0 {
      ScanStartsAreOrdered(s, n - 1);
      var before := ScanStarts(s, n - 1);
      if IsScanStart(s, n - 1) {
        var all := before + [n - 1];
        assert ScanStarts(s, n) == all;
        assert all[|before|] == n - 1;
        forall k | 0 <= k < |before| ensures all[k] == before[k] {
        }
      } else {
        assert ScanStarts(s, n) == before;
      }
    }
  }

  /** The nodes read below `n`, in input order. */
  function TokensUpTo(s: string, n: nat): seq<Token>
    requires n <= |s|
  {
    if n == 0 then []
    else TokensUpTo(s, n - 1) + (if IsScanStart(s, n - 1) && ScanAt(s, n - 1).Success? then [ScanAt(s, n - 1).value] else [])
  }

  /** What `Parse` yields: the error at the first failing position, else every node read, in order. */
  function Scan(s: string): (r: Result<seq<Token>>)
    ensures r.Success? <==> forall p :: 0 <= p < |s| ==> !Offending(s, p)
    ensures r.Failure? ==> FirstOffence(s, 0).Some? && r.error == ScanAt(s, FirstOffence(s, 0).value).error
  {
    match FirstOffence(s, 0)
    case Some(p) => Failure(ScanAt(s, p).error)
    case None => Success(TokensUpTo(s, |s|))
  }

  /** An operation character is read as its operation, at the depth of the text before it. */
  lemma ReadsOperation(s: string, p: nat)
    requires p < |s| && s[p] in OperationPrototypes
    ensures IsScanStart(s, p) && TokenEnd(s, p) == p + 1
    ensures ScanAt(s, p) == Success(Operation(OperationPrototypes[s[p]], Depth(s[..p])))
  {
  }

  /** A digit run from `p` to `e` with value `v` is read as one number, at the depth of the text before it. */
  lemma ReadsNumber(s: string, p: nat, e: nat, v: Int32)
    requires p < e <= |s| && (p == 0 || !IsDigit(s[p - 1]))
    requires forall k :: p <= k < e ==> IsDigit(s[k])
    requires e == |s| || !IsDigit(s[e])
    requires DigitsValue(s[p..e]) == v as int
    ensures IsScanStart(s, p) && RunEnd(s, p) == e
    ensures ScanAt(s, p) == Success(Number(v, Depth(s[..p])))
  {
    RunEndIsFirstNonDigit(s, p, e);
    ReadsRun(s, p, v);
  }

  lemma ReadsRun(s: string, p: nat, v: Int32)
    requires p < |s| && IsDigit(s[p]) && DigitsValue(s[p..RunEnd(s, p)]) == v as int
    ensures ScanAt(s, p) == Success(Number(v, Depth(s[..p])))
  {
    NumberAtValue(s, p, v);
    DigitsReadAs(s, p, Depth(s[..p]), v);
  }

  lemma NumberAtValue(s: string, p: nat, v: Int32)
    requires p < |s| && IsDigit(s[p]) && DigitsValue(s[p..RunEnd(s, p)]) == v as int
    ensures NumberAt(s, p) == Success(Number(v, 0))
  {
  }

  lemma DigitsReadAs(s: string, p: nat, d: int, v: Int32)
    requires p < |s| && IsDigit(s[p]) && NumberAt(s, p) == Success(Number(v, 0))
    ensures ReadToken(s, p, d) == Success(Number(v, d))
  {
  }

  /** A successful read at a scan start appends its node. */
  lemma TokensGrow(s: string, n: nat, t: Token)
    requires n < |s| && IsScanStart(s, n) && ScanAt(s, n) == Success(t)
    ensures TokensUpTo(s, n + 1) == TokensUpTo(s, n) + [t]
    ensures !Offending(s, n)
  {
  }

  /** With no failing position the scan yields every node read. */
  lemma ScanSucceeds(s: string)
    requires forall q :: 0 <= q < |s| ==> !Offending(s, q)
    ensures Scan(s) == Success(TokensUpTo(s, |s|))
  {
  }

  /** The scan fails with the error of its first failing position. */
  lemma ScanFailsAt(s: string, i: nat)
    requires i < |s| && Offending(s, i)
    requires forall q :: 0 <= q < i ==> !Offending(s, q)
    ensures Scan(s) == Failure(ScanAt(s, i).error)
  {
    var f := FirstOffence(s, 0);
    assert f.Some?;
  }

  /** The scan reads `t` at `p`, tagged with the parenthesis depth of the text before `p`. */
  predicate ReadsAt(s: string, p: nat, t: Token) {
    p < |s| && ScanAt(s, p) == Success(t) && t.depth == Depth(s[..p])
  }

  lemma StartReads(s: string, p: nat)
    requires p < |s| && ScanAt(s, p).Success?
    ensures ReadsAt(s, p, ScanAt(s, p).value)
  {
    ReadTokenFacts(s, p, Depth(s[..p]));
  }

  /** Each start of `starts` reads the node at the same place in `tokens`. */
  predicate AllRead(s: string, starts: seq<nat>, tokens: seq<Token>)
    decreases |starts|
  {
    |starts| == |tokens| &&
    (|starts| == 0 ||
     (AllRead(s, starts[..|starts| - 1], tokens[..|tokens| - 1]) && ReadsAt(s, starts[|starts| - 1], tokens[|tokens| - 1])))
  }

  lemma {:induction false} AllReadPairs(s: string, starts: seq<nat>, tokens: seq<Token>)
    requires AllRead(s, starts, tokens)
    ensures |starts| == |tokens|
    ensures forall k :: 0 <= k < |starts| ==> ReadsAt(s, starts[k], tokens[k])
    decreases |starts|
  {
    if |starts| > 0 {
      var last := |starts| - 1;
      var shorter, fewer := starts[..last], tokens[..last];
      AllReadPairs(s, shorter, fewer);
      forall k | 0 <= k < |starts| ensures ReadsAt(s, starts[k], tokens[k]) {
        if k < last {
          assert shorter[k] == starts[k] && fewer[k] == tokens[k];
        }
      }
    }
  }

  lemma {:induction false} TokensReadInOrder(s: string, n: nat)
    requires n <= |s|
    requires forall q :: 0 <= q < n ==> !Offending(s, q)
    ensures AllRead(s, ScanStarts(s, n), TokensUpTo(s, n))
  {
    if n > 0 {
      var before, starts := TokensUpTo(s, n - 1), ScanStarts(s, n - 1);
      assert AllRead(s, starts, before) by { TokensReadInOrder(s, n - 1); }
      if IsScanStart(s, n - 1) {
        assert !Offending(s, n - 1);
        var t := ScanAt(s, n - 1).value;
        assert ReadsAt(s, n - 1, t) by { StartReads(s, n - 1); }
        assert TokensUpTo(s, n) == before + [t];
        assert ScanStarts(s, n) == starts + [n - 1];
        AllReadGrows(s, starts, before, n - 1, t);
      } else {
        assert TokensUpTo(s, n) == before;
        assert ScanStarts(s, n) == starts;
      }
    }
  }

  lemma AllReadGrows(s: string, starts: seq<nat>, tokens: seq<Token>, p: nat, t: Token)
    requires AllRead(s, starts, tokens) && ReadsAt(s, p, t)
    ensures AllRead(s, starts + [p], tokens + [t])
  {
    var all, more := starts + [p], tokens + [t];
    assert all[..|all| - 1] == starts && more[..|more| - 1] == tokens;
  }

  /**
   * Token order and depth tags: the k-th node is the one read at the k-th scan start,
   * tagged with the parenthesis depth of the text before it.
   */
  lemma TokensFollowStarts(s: string, n: nat)
    requires n <= |s|
    requires forall q :: 0 <= q < n ==> !Offending(s, q)
    ensures |TokensUpTo(s, n)| == |ScanStarts(s, n)|
    ensures forall k :: 0 <= k < |ScanStarts(s, n)| ==> ReadsAt(s, ScanStarts(s, n)[k], TokensUpTo(s, n)[k])
  {
    TokensReadInOrder(s, n);
    AllReadPairs(s, ScanStarts(s, n), TokensUpTo(s, n));
  }

  /** The scan start that reads the character at `q`: `q` itself, or the start of the digit run holding `q`. */
  function Owner(s: string, q: nat): (p: nat)
    requires q < |s|
    ensures p <= q
    ensures forall k :: p <= k <= q && IsDigit(s[q]) ==> IsDigit(s[k])
    ensures !IsDigit(s[q]) ==> p == q
    ensures IsDigit(s[q]) ==> p == 0 || !IsDigit(s[p - 1])
  {
    if q > 0 && IsDigit(s[q]) && IsDigit(s[q - 1]) then Owner(s, q - 1) else q
  }

  /** Every character other than a parenthesis is read by exactly one scan start, and parentheses by none. */
  lemma ExactlyOneReader(s: string, q: nat)
    requires q < |s|
    ensures !IsScobe(s[q]) ==> IsScanStart(s, Owner(s, q)) && q < TokenEnd(s, Owner(s, q))
    ensures forall p :: 0 <= p < |s| && IsScanStart(s, p) && p <= q < TokenEnd(s, p) ==>
              !IsScobe(s[q]) && p == Owner(s, q)
  {
    var o := Owner(s, q);
    if !IsScobe(s[q]) && IsDigit(s[q]) {
      assert IsDigit(s[o]);
      RunCovers(s, o, q);
    }
    forall p | 0 <= p < |s| && IsScanStart(s, p) && p <= q < TokenEnd(s, p)
      ensures !IsScobe(s[q]) && p == o
    {
      if IsDigit(s[p]) {
        assert forall k :: p <= k < RunEnd(s, p) ==> IsDigit(s[k]);
        assert IsDigit(s[q]);
      }
    }
  }

  lemma {:induction false} RunCovers(s: string, p: nat, q: nat)
    requires p <= q < |s|
    requires forall k :: p <= k <= q ==> IsDigit(s[k])
    ensures q < RunEnd(s, p)
  {
  }

  /** A parenthesis adds no node and cannot fail. */
  lemma ScobeStep(s: string, i: nat)
    requires i < |s| && IsScobe(s[i])
    ensures TokensUpTo(s, i + 1) == TokensUpTo(s, i)
    ensures !Offending(s, i)
  {
  }

  /** Reading an operation adds that one node. */
  lemma OperationStep(s: string, i: nat)
    requires i < |s| && !IsDigit(s[i]) && IsScanStart(s, i) && ScanAt(s, i).Success?
    ensures TokensUpTo(s, i + 1) == TokensUpTo(s, i) + [ScanAt(s, i).value]
    ensures Depth(s[..i + 1]) == Depth(s[..i])
    ensures !Offending(s, i)
  {
    DepthStep(s, i);
  }

  /** Reading a whole digit run adds one node and leaves the depth and the absence of errors as they were. */
  lemma {:induction false} RunStep(s: string, i: nat)
    requires i < |s| && IsDigit(s[i]) && IsScanStart(s, i) && ScanAt(s, i).Success?
    ensures TokensUpTo(s, RunEnd(s, i)) == TokensUpTo(s, i) + [ScanAt(s, i).value]
    ensures Depth(s[..RunEnd(s, i)]) == Depth(s[..i])
    ensures forall q :: i <= q < RunEnd(s, i) ==> !Offending(s, q)
  {
    DepthStep(s, i);
    TokensGrow(s, i, ScanAt(s, i).value);
    RunInterior(s, i, RunEnd(s, i));
  }

  /** The digits after the first one of a run, up to `k`, add no node, no error and no depth. */
  lemma {:induction false} RunInterior(s: string, i: nat, k: nat)
    requires i < |s| && i < k <= RunEnd(s, i) && IsDigit(s[i])
    ensures TokensUpTo(s, k) == TokensUpTo(s, i + 1) && Depth(s[..k]) == Depth(s[..i + 1])
    ensures forall q :: i < q < k ==> !Offending(s, q)
    decreases k
  {
    if k > i + 1 {
      RunInterior(s, i, k - 1);
      InsideRun(s, k - 1);
    }
  }

  /** A digit that continues a run starts nothing: it adds no node, no error and no depth. */
  lemma InsideRun(s: string, k: nat)
    requires 0 < k < |s| && IsDigit(s[k - 1]) && IsDigit(s[k])
    ensures TokensUpTo(s, k + 1) == TokensUpTo(s, k) && !Offending(s, k)
    ensures Depth(s[..k + 1]) == Depth(s[..k])
  {
    DepthStep(s, k);
  }
}

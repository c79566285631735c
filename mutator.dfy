/** The mutation operators of the fuzzer (simple_fuzzer/utils/Mutator.py).

    Every random draw of an operator is an explicit parameter whose range is
    stated in a `requires` clause, so that each operator is a deterministic
    function of its input and its draws.  A draw from an empty range
    (`random.randint(a, b)` with `b < a`) raises `ValueError` in the source;
    here it is `Err(ValueError)`.  `chr` raises `ValueError` above the last
    code point, and `OverflowError` (CPython) on a value that does not even
    fit a C `int`.

    A Python `str` is modelled as its sequence of code points (`Text`), so that
    the four-byte interesting value 4294967295, which `chr` rejects, can be
    stated. */
module Mutator {
  import opened Outcomes

  /** A Python string as the sequence of its code points. */
  type Text = seq<int>

  /** The largest code point `chr` accepts. */
  const MAX_CODE_POINT: int := 0x10FFFF

  /** The largest C `int`, which CPython's `chr` converts its argument to
      before it checks the code point range. */
  const C_INT_MAX: int := 0x7FFF_FFFF

  /** The exception `chr(c)` raises for a `c` that is not a code point. */
  function ChrError(c: int): Error
    requires c > MAX_CODE_POINT
  {
    if c > C_INT_MAX then OverflowError else ValueError
  }

  /** The code points of the characters '0' and '1'. */
  const ZERO: int := 48
  const ONE: int := 49

  /** True iff every element of `s` is a code point, i.e. `s` is a Python string. */
  predicate IsText(s: Text) {
    forall i :: 0 <= i < |s| ==> 0 <= s[i] <= MAX_CODE_POINT
  }

  /** The widths N in {1, 2, 4} drawn by `random.choice([1, 2, 4])`. */
  predicate IsWidth(n: int) {
    n == 1 || n == 2 || n == 4
  }

  /** One character of `string.ascii_letters + string.digits`. */
  predicate IsAlphanumeric(c: int) {
    ('0' as int <= c <= '9' as int) || ('A' as int <= c <= 'Z' as int) || ('a' as int <= c <= 'z' as int)
  }

  /** The table `interesting_values` of boundary values, by width. */
  function InterestingValues(n: int): (vs: seq<int>)
    requires IsWidth(n)
    ensures |vs| == if n == 1 then 5 else 4
    ensures vs[0] == 0 && vs[1] == 1
  {
    if n == 1 then [0, 1, 127, 128, 255]
    else if n == 2 then [0, 1, 256, 65535]
    else [0, 1, 65536, 4294967295]
  }

  /** Only the four-byte table holds a value that `chr` rejects, only its
      last one, and that one overflows a C `int`. */
  lemma InterestingOutOfRange(n: int, k: int)
    requires IsWidth(n) && 0 <= k < |InterestingValues(n)|
    ensures InterestingValues(n)[k] > MAX_CODE_POINT <==> n == 4 && k == 3
    ensures InterestingValues(n)[k] > MAX_CODE_POINT ==> ChrError(InterestingValues(n)[k]) == OverflowError
  {
  }

  // ---------------------------------------------------------------------------
  // insert_random_character

  /** `s[:pos] + chr(c) + s[pos:]` with `pos` drawn from [0, len(s)] and `c` from [32, 127]. */
  function InsertRandomCharacter(s: Text, pos: int, c: int): (r: Text)
    requires 0 <= pos <= |s|
    requires 32 <= c <= 127
    ensures |r| == |s| + 1
    ensures r[pos] == c
    ensures r[..pos] == s[..pos] && r[pos + 1..] == s[pos..]
    ensures r[..pos] + r[pos + 1..] == s
    ensures IsText(s) ==> IsText(r)
  {
    s[..pos] + [c] + s[pos..]
  }

  // ---------------------------------------------------------------------------
  // flip_random_bits

  /** The rewrite `flip_random_bits` applies to one character: '0' becomes '1',
      every other character becomes '0'. */
  function FlipChar(c: int): (r: int)
    ensures r == ZERO || r == ONE
    ensures r == ONE <==> c == ZERO
  {
    if c == ZERO then ONE else ZERO
  }

  /** Rewriting twice gives back exactly the characters '0' and '1'. */
  lemma FlipCharTwice(c: int)
    ensures FlipChar(FlipChar(c)) == c <==> c == ZERO || c == ONE
  {
  }

  /** `flip_random_bits` with the width `n` and the start `index` as draws: it
      copies `s` into a list and rewrites the `n` characters from `index` on. */
  method FlipRandomBits(s: Text, n: int, index: int) returns (r: Result<Text>)
    requires IsWidth(n)
    requires n <= |s| ==> 0 <= index <= |s| - n
    ensures r.Err? <==> |s| < n
    ensures r.Err? ==> r.error == ValueError
    ensures r.Ok? ==> |r.value| == |s|
    ensures r.Ok? ==> forall i :: 0 <= i < |s| ==>
      r.value[i] == if index <= i < index + n then FlipChar(s[i]) else s[i]
    ensures r.Ok? && IsText(s) ==> IsText(r.value)
  {
    if |s| < n {
      return Err(ValueError);
    }
    var result := s;
    for i := 0 to n
      invariant |result| == |s|
      invariant forall j :: 0 <= j < |s| ==>
        result[j] == if index <= j < index + i then FlipChar(s[j]) else s[j]
    {
      result := result[index + i := FlipChar(result[index + i])];
    }
    return Ok(result);
  }

  // ---------------------------------------------------------------------------
  // arithmetic_random_bytes

  /** `arithmetic_random_bytes` with the width `n`, the start `index` and the
      one `delta` in [-35, 35] as draws. */
  function ArithmeticRandomBytes(s: Text, n: int, index: int, delta: int): (r: Result<Text>)
    requires IsWidth(n)
    requires n <= |s| ==> 0 <= index <= |s| - n
    requires -35 <= delta <= 35
    ensures r.Err? <==> |s| < n
    ensures r.Err? ==> r.error == ValueError
    ensures r.Ok? ==> |r.value| == |s|
    ensures r.Ok? ==> r.value[..index] == s[..index] && r.value[index + n..] == s[index + n..]
    ensures r.Ok? ==> forall j :: index <= j < index + n ==>
      0 <= r.value[j] <= 255 && (r.value[j] - s[j]) % 256 == delta % 256
    ensures r.Ok? && IsText(s) ==> IsText(r.value)
  {
    if |s| < n then Err(ValueError)
    else
      var shifted := seq(n, j requires 0 <= j < n => (s[index + j] + delta) % 256);
      Ok(s[..index] + shifted + s[index + n..])
  }

  // ---------------------------------------------------------------------------
  // interesting_random_bytes

  /** True iff `picks` are `n` draws from `InterestingValues(n)`. */
  predicate AreInterestingPicks(n: int, picks: seq<int>)
    requires IsWidth(n)
  {
    |picks| == n && forall j :: 0 <= j < n ==> picks[j] in InterestingValues(n)
  }

  /** `interesting_random_bytes` with the width `n`, the start `index` and the
      `n` table entries `picks` as draws.  `chr` raises on an entry above
      `MAX_CODE_POINT`, which ends the loop. */
  method InterestingRandomBytes(s: Text, n: int, index: int, picks: seq<int>) returns (r: Result<Text>)
    requires IsWidth(n)
    requires n <= |s| ==> 0 <= index <= |s| - n
    requires AreInterestingPicks(n, picks)
    ensures r.Err? <==> |s| < n || exists j :: 0 <= j < n && picks[j] > MAX_CODE_POINT
    ensures r.Err? ==> r.error == if |s| < n then ValueError else OverflowError
    ensures r.Ok? ==> |r.value| == |s|
    ensures r.Ok? ==> forall i :: 0 <= i < |s| ==>
      r.value[i] == if index <= i < index + n then picks[i - index] else s[i]
    ensures r.Ok? && IsText(s) ==> IsText(r.value)
  {
    if |s| < n {
      return Err(ValueError);
    }
    var result := s;
    for i := 0 to n
      invariant |result| == |s|
      invariant forall j :: 0 <= j < i ==> picks[j] <= MAX_CODE_POINT
      invariant forall j :: 0 <= j < |s| ==>
        result[j] == if index <= j < index + i then picks[j - index] else s[j]
    {
      if picks[i] > MAX_CODE_POINT {
        assert picks[i] == 4294967295;
        return Err(ChrError(picks[i]));
      }
      result := result[index + i := picks[i]];
    }
    return Ok(result);
  }

  // ---------------------------------------------------------------------------
  // havoc_random_insert and havoc_random_replace

  /** The draws that pick the piece a havoc operator writes: with probability
      0.75 a slice of `s` (`start` from [0, len(s)], then `length` from
      [1, len(s) - start]), otherwise 1 to 10 fresh letters and digits. */
  datatype Piece = Splice(start: int, length: int) | Fresh(chars: Text)

  predicate IsPieceDraw(s: Text, p: Piece) {
    match p
    case Splice(start, length) => 0 <= start <= |s| && (start < |s| ==> 1 <= length <= |s| - start)
    case Fresh(chars) => 1 <= |chars| <= 10 && forall k :: 0 <= k < |chars| ==> IsAlphanumeric(chars[k])
  }

  /** The content a havoc operator writes.  A splice that draws
      `start == len(s)` leaves `random.randint(1, 0)`, which raises. */
  function PieceContent(s: Text, p: Piece): (r: Result<Text>)
    requires IsPieceDraw(s, p)
    ensures r.Err? <==> p.Splice? && p.start == |s|
    ensures r.Err? ==> r.error == ValueError
    ensures r.Ok? ==> |r.value| >= 1
    ensures r.Ok? && p.Splice? ==> p.start + |r.value| <= |s| && r.value == s[p.start..p.start + |r.value|]
    ensures r.Ok? && p.Fresh? ==> |r.value| <= 10 && forall k :: 0 <= k < |r.value| ==> IsAlphanumeric(r.value[k])
    ensures r.Ok? && IsText(s) ==> IsText(r.value)
  {
    match p
    case Splice(start, length) =>
      if start == |s| then Err(ValueError) else Ok(s[start..start + length])
    case Fresh(chars) => Ok(chars)
  }

  /** `havoc_random_insert` with the position `index` from [0, len(s)] and the
      piece draws `p`: the piece is inserted at `index`. */
  function HavocRandomInsert(s: Text, index: int, p: Piece): (r: Result<Text>)
    requires 0 <= index <= |s|
    requires IsPieceDraw(s, p)
    ensures r.Err? <==> PieceContent(s, p).Err?
    ensures r.Err? ==> r.error == ValueError
    ensures r.Ok? ==> var piece := PieceContent(s, p).value;
      && |r.value| == |s| + |piece|
      && r.value[index..index + |piece|] == piece
      && r.value[..index] + r.value[index + |piece|..] == s
    ensures r.Ok? && IsText(s) ==> IsText(r.value)
  {
    match PieceContent(s, p)
    case Err(e) => Err(e)
    case Ok(piece) =>
      var t := s[..index] + piece + s[index..];
      assert t[..index] == s[..index] && t[index + |piece|..] == s[index..];
      Ok(t)
  }

  /** `havoc_random_replace` with the position `index` from [0, len(s)] and the
      piece draws `p`: the piece overwrites the characters from `index` on,
      and the string grows when the piece runs past its end (a Python slice
      past the end is empty). */
  function HavocRandomReplace(s: Text, index: int, p: Piece): (r: Result<Text>)
    requires 0 <= index <= |s|
    requires IsPieceDraw(s, p)
    ensures r.Err? <==> PieceContent(s, p).Err?
    ensures r.Err? ==> r.error == ValueError
    ensures r.Ok? ==> var piece := PieceContent(s, p).value;
      && |r.value| == (if index + |piece| <= |s| then |s| else index + |piece|)
      && |r.value| >= |s|
      && r.value[..index] == s[..index]
      && r.value[index..index + |piece|] == piece
      && (index + |piece| <= |s| ==> r.value[index + |piece|..] == s[index + |piece|..])
    ensures r.Ok? && IsText(s) ==> IsText(r.value)
  {
    match PieceContent(s, p)
    case Err(e) => Err(e)
    case Ok(piece) =>
      var rest := if index + |piece| <= |s| then s[index + |piece|..] else [];
      var t := s[..index] + piece + rest;
      assert t[..index] == s[..index] && t[index..index + |piece|] == piece;
      Ok(t)
  }

  // ---------------------------------------------------------------------------
  // Mutator.mutate

  /** One call of `Mutator.mutate`: the operator `random.choice` picks from the
      six listed in the constructor, together with that operator's draws. */
  datatype Mutation =
    | InsertCharacter(pos: int, c: int)
    | FlipBits(n: int, index: int)
    | ArithmeticBytes(n: int, index: int, delta: int)
    | InterestingBytes(n: int, index: int, picks: seq<int>)
    | HavocInsert(at: int, piece: Piece)
    | HavocReplace(at: int, piece: Piece)

  /** True iff every draw of `m` lies in the range the operator draws it from on `s`. */
  predicate IsDraw(m: Mutation, s: Text) {
    match m
    case InsertCharacter(pos, c) => 0 <= pos <= |s| && 32 <= c <= 127
    case FlipBits(n, index) => IsWidth(n) && (n <= |s| ==> 0 <= index <= |s| - n)
    case ArithmeticBytes(n, index, delta) =>
      IsWidth(n) && (n <= |s| ==> 0 <= index <= |s| - n) && -35 <= delta <= 35
    case InterestingBytes(n, index, picks) =>
      IsWidth(n) && (n <= |s| ==> 0 <= index <= |s| - n) && AreInterestingPicks(n, picks)
    case HavocInsert(at, piece) => 0 <= at <= |s| && IsPieceDraw(s, piece)
    case HavocReplace(at, piece) => 0 <= at <= |s| && IsPieceDraw(s, piece)
  }

  /** The exception `m` raises on `s` when it raises: only the interesting
      values, once the width fits, reach `chr` with a value it overflows on. */
  function MutationError(m: Mutation, s: Text): Error {
    if m.InterestingBytes? && m.n <= |s| then OverflowError else ValueError
  }

  /** True iff applying `m` to `s` raises. */
  predicate Raises(m: Mutation, s: Text) {
    match m
    case InsertCharacter(_, _) => false
    case FlipBits(n, _) => |s| < n
    case ArithmeticBytes(n, _, _) => |s| < n
    case InterestingBytes(n, _, picks) =>
      |s| < n || exists j :: 0 <= j < |picks| && j < n && picks[j] > MAX_CODE_POINT
    case HavocInsert(_, piece) => piece.Splice? && piece.start == |s|
    case HavocReplace(_, piece) => piece.Splice? && piece.start == |s|
  }

  /** True iff `t` is what the operator `m` names makes of `s` with its draws. */
  ghost predicate Applied(s: Text, m: Mutation, t: Text)
    requires IsDraw(m, s)
  {
    match m
    case InsertCharacter(pos, c) => t == InsertRandomCharacter(s, pos, c)
    case FlipBits(n, index) =>
      |t| == |s| && forall i :: 0 <= i < |s| ==> t[i] == if index <= i < index + n then FlipChar(s[i]) else s[i]
    case ArithmeticBytes(n, index, delta) => Ok(t) == ArithmeticRandomBytes(s, n, index, delta)
    case InterestingBytes(n, index, picks) =>
      |t| == |s| && forall i :: 0 <= i < |s| ==> t[i] == if index <= i < index + n then picks[i - index] else s[i]
    case HavocInsert(at, piece) => Ok(t) == HavocRandomInsert(s, at, piece)
    case HavocReplace(at, piece) => Ok(t) == HavocRandomReplace(s, at, piece)
  }

  /** `Mutator.mutate`: applies exactly the operator `m` names, with its draws.
      No operator shortens its input, and every output is a Python string
      when the input is one. */
  method Mutate(s: Text, m: Mutation) returns (r: Result<Text>)
    requires IsDraw(m, s)
    ensures r.Err? <==> Raises(m, s)
    ensures r.Err? ==> r.error == MutationError(m, s)
    ensures r.Ok? ==> Applied(s, m, r.value)
    ensures r.Ok? ==> |r.value| >= |s|
    ensures r.Ok? && IsText(s) ==> IsText(r.value)
  {
    match m
    case InsertCharacter(pos, c) =>
      r := Ok(InsertRandomCharacter(s, pos, c));
    case FlipBits(n, index) =>
      r := FlipRandomBits(s, n, index);
    case ArithmeticBytes(n, index, delta) =>
      r := ArithmeticRandomBytes(s, n, index, delta);
    case InterestingBytes(n, index, picks) =>
      r := InterestingRandomBytes(s, n, index, picks);
    case HavocInsert(at, piece) =>
      r := HavocRandomInsert(s, at, piece);
    case HavocReplace(at, piece) =>
      r := HavocRandomReplace(s, at, piece);
  }

  // ---------------------------------------------------------------------------
  // The stacking loop of GreyBoxFuzzer.create_candidate

  /** `1 << k`. */
  function Pow2(k: nat): (r: nat)
    ensures r >= 1
  {
    if k == 0 then 1 else 2 * Pow2(k - 1)
  }

  /** `trials = min(len(candidate), 1 << r)`. */
  function Trials(length: nat, r: int): (t: nat)
    requires 1 <= r <= 5
    ensures t <= length && t <= 32
    ensures t == length || t == Pow2(r)
    ensures length <= Pow2(r) ==> t == length
  {
    var bound := Pow2(r);
    assert bound <= 32 by {
      assert Pow2(1) == 2 && Pow2(2) == 4 && Pow2(3) == 8 && Pow2(4) == 16 && Pow2(5) == 32;
    }
    if length < bound then length else bound
  }

  /** True iff `steps` is the run of the stacking loop on `data`: it starts
      at `data`, each step is what `Mutator.mutate` makes of the one before
      with the draws of that trial, and either all `Trials(|data|, r)`
      trials succeed and `x` is the last step, or the trial on the last
      step raises and `x` is what it raises. */
  ghost predicate StackedFrom(data: Text, r: int, draw: (nat, Text) -> Mutation, x: Result<Text>, steps: seq<Text>)
    requires 1 <= r <= 5
    requires forall k: nat, t: Text :: IsDraw(draw(k, t), t)
  {
    && 1 <= |steps| <= Trials(|data|, r) + 1
    && steps[0] == data
    && (forall k :: 0 <= k < |steps| - 1 ==> Applied(steps[k], draw(k, steps[k]), steps[k + 1]))
    && (x.Ok? <==> |steps| == Trials(|data|, r) + 1)
    && (x.Ok? ==> x.value == steps[|steps| - 1])
    && (x.Err? ==>
          var last := steps[|steps| - 1];
          x.error == MutationError(draw(|steps| - 1, last), last) && Raises(draw(|steps| - 1, last), last))
  }

  /** The stacking loop of `create_candidate`: `r` is drawn from [1, 5], and
      `draw(k, t)` is what `Mutator.mutate` draws in the k-th trial when the
      candidate so far is `t`.  An exception raised by one trial ends the loop. */
  method StackMutations(data: Text, r: int, draw: (nat, Text) -> Mutation)
      returns (candidate: Result<Text>, trials: nat, ghost steps: seq<Text>)
    requires 1 <= r <= 5
    requires forall k: nat, t: Text :: IsDraw(draw(k, t), t)
    ensures trials == Trials(|data|, r) && trials <= 32
    ensures StackedFrom(data, r, draw, candidate, steps)
    ensures |data| == 0 ==> candidate == Ok(data)
    ensures candidate.Ok? ==> |candidate.value| >= |data|
    ensures candidate.Ok? && IsText(data) ==> IsText(candidate.value)
  {
    trials := Trials(|data|, r);
    var current := data;
    steps := [data];
    for i := 0 to trials
      invariant |steps| == i + 1 && steps[0] == data && steps[i] == current
      invariant forall k :: 0 <= k < i ==> Applied(steps[k], draw(k, steps[k]), steps[k + 1])
      invariant |current| >= |data|
      invariant IsText(data) ==> IsText(current)
    {
      var next := Mutate(current, draw(i, current));
      if next.Err? {
        return Err(next.error), trials, steps;
      }
      current := next.value;
      steps := steps + [current];
    }
    candidate := Ok(current);
  }
}

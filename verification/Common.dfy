/** Types shared by every model: results that may raise, bytes, and a perfect SHA-256. */
module Common {

  datatype Option<+T> = None | Some(value: T)

  /** The exceptions the modelled code raises. */
  datatype Error =
    | ValueError
    | KeyError
    | FileNotFound
    | FileExists
    | RuntimeError
    | IndexError
    | RecursionError
    | PolicyDenied
    | Panic
    | TenantMismatch
    | RehydrationFailed
    | VerifierFailed
    | OperationFailed

  datatype Result<+T> = Ok(value: T) | Raise(error: Error) {
    predicate IsFailure() { Raise? }
    function PropagateFailure<U>(): Result<U> requires Raise? { Raise(error) }
    function Extract(): T requires Ok? { value }
  }

  type byte = b: int | 0 <= b < 256
  type bytes = seq<byte>

  /** A digest is the term for the bytes it covers, so equal digests mean equal bytes. */
  datatype Digest = Sha256(content: bytes)

  function Min(a: int, b: int): int { if a <= b then a else b }

  function Max(a: int, b: int): int { if a >= b then a else b }

  /** `b"".join(parts)`. */
  function Concat<T>(parts: seq<seq<T>>): seq<T> {
    if parts == [] then [] else parts[0] + Concat(parts[1..])
  }

  /** `str(n)` */
  function Decimal(n: nat): string {
    if n < 10 then ['0' + n as char] else Decimal(n / 10) + ['0' + (n % 10) as char]
  }

  predicate IsDigit(c: char) { '0' <= c <= '9' }

  /** The number that digits spell. */
  function NumberOf(s: string): int
    requires forall i :: 0 <= i < |s| ==> IsDigit(s[i])
  {
    if s == "" then 0 else NumberOf(s[..|s| - 1]) * 10 + (s[|s| - 1] as int - '0' as int)
  }

  /** A number is written in digits that spell it, without a zero in front. */
  lemma {:induction false} DecimalSpells(n: nat)
    ensures Decimal(n) != "" && forall i :: 0 <= i < |Decimal(n)| ==> IsDigit(Decimal(n)[i])
    ensures NumberOf(Decimal(n)) == n && (Decimal(n)[0] == '0' <==> n == 0)
  {
    if n < 10 {
      assert NumberOf(Decimal(n)[..0]) == 0;
    } else {
      DecimalSpells(n / 10);
      assert Decimal(n)[..|Decimal(n)| - 1] == Decimal(n / 10);
    }
  }

  /** What a loop has gathered, in front of what the rest of it will yield or raise. */
  function Prepend<T>(done: seq<T>, rest: Result<seq<T>>): Result<seq<T>> {
    if rest.Ok? then Ok(done + rest.value) else rest
  }

  lemma PrependTwice<T>(x: seq<T>, y: seq<T>, r: Result<seq<T>>)
    ensures Prepend(x, Prepend(y, r)) == Prepend(x + y, r)
  {
    assert r.Ok? ==> x + (y + r.value) == (x + y) + r.value;
  }

  lemma PrependNothing<T>(r: Result<seq<T>>)
    ensures Prepend([], r) == r
  {
    assert r.Ok? ==> [] + r.value == r.value;
  }

  lemma ConcatCons<T>(head: seq<T>, rest: seq<seq<T>>)
    ensures Concat([head] + rest) == head + Concat(rest)
  {
    assert ([head] + rest)[1..] == rest;
  }

  lemma AppendAssoc<T>(x: seq<T>, y: seq<T>, z: seq<T>)
    ensures x + (y + z) == (x + y) + z
  {}

  lemma {:induction false} ConcatAppend<T>(xs: seq<seq<T>>, ys: seq<seq<T>>)
    ensures Concat(xs + ys) == Concat(xs) + Concat(ys)
  {
    if xs == [] {
      assert xs + ys == ys;
    } else {
      hide Concat;
      var x, rest := xs[0], xs[1..];
      assert xs == [x] + rest;
      AppendAssoc([x], rest, ys);
      ConcatAppend(rest, ys);
      ConcatCons(x, rest);
      ConcatCons(x, rest + ys);
      AppendAssoc(x, Concat(rest), Concat(ys));
    }
  }

  lemma ConcatSnoc<T>(xs: seq<seq<T>>, y: seq<T>)
    ensures Concat(xs + [y]) == Concat(xs) + y
  {
    ConcatAppend(xs, [y]);
    assert Concat([y]) == y + Concat([]);
  }

  lemma {:induction false} ConcatNonEmpty<T>(xs: seq<seq<T>>)
    requires forall i :: 0 <= i < |xs| ==> xs[i] != []
    ensures |Concat(xs)| >= |xs|
  {
    if xs != [] {
      ConcatNonEmpty(xs[1..]);
      assert xs[0] != [];
    }
  }
}

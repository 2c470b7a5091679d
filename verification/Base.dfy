/** Machine integers, byte strings, C pointers with a count, and errno results. */
module Base {

  const U32_MAX: int := 0xFFFF_FFFF

  type byte = x: int | 0 <= x < 0x100
  type u16 = x: int | 0 <= x < 0x1_0000
  type u32 = x: int | 0 <= x < 0x1_0000_0000
  type u64 = x: int | 0 <= x < 0x1_0000_0000_0000_0000

  type bytes = seq<byte>

  /** A list whose length fits the u32 counts of the protocol. */
  type List<T> = s: seq<T> | |s| <= U32_MAX witness []

  function Zeros(n: nat): (s: bytes)
    ensures |s| == n && forall i :: 0 <= i < n ==> s[i] == 0
  {
    seq(n, _ => 0)
  }

  type Guid = g: bytes | |g| == 16 witness Zeros(16)

  const NIL: Guid := Zeros(16)

  datatype Option<+T> = None | Some(value: T) {
    predicate IsFailure() { None? }
    function PropagateFailure<U>(): Option<U> requires None? { None }
    function Extract(): T requires Some? { value }
  }

  /** The errno values a helper can report; `Os` is whatever write(2) set. */
  datatype Errno = EINVAL | ENOMEM | EOVERFLOW | EIO | EBADMSG | Os(code: int)

  datatype Result<+T> = Ok(value: T) | Err(errno: Errno) {
    predicate IsFailure() { Err? }
    function PropagateFailure<U>(): Result<U> requires Err? { Err(errno) }
    function Extract(): T requires Ok? { value }
  }

  /**
   * A C `(pointer, u32 count)` pair. A null pointer may come with any count; a
   * non-null one is valid for exactly the elements it is read for.
   */
  datatype RawView<T> = Null(nullCount: u32) | At(elems: seq<T>)

  type View<T> = v: RawView<T> | v.At? ==> |v.elems| <= U32_MAX witness RawView.Null(0)

  function Count<T>(v: View<T>): u32 {
    if v.Null? then v.nullCount else |v.elems|
  }

  /** What can be read through the pointer. */
  function Elems<T>(v: View<T>): List<T> {
    if v.Null? then [] else v.elems
  }

  /** `ptr` may be null only when the count is zero. */
  predicate Readable<T>(v: View<T>) {
    v.Null? ==> v.nullCount == 0
  }

  /** The pointer check made before an array or a length-prefixed field is read. */
  function RequireView<T>(v: View<T>): (r: Result<()>)
    ensures r.Ok? <==> |Elems(v)| == Count(v)
    ensures r.Err? ==> r.errno == EINVAL
  {
    if Count(v) != 0 && v.Null? then Err(EINVAL) else Ok(())
  }

  function Map<A, B>(f: A -> B, xs: seq<A>): (ys: seq<B>)
    ensures |ys| == |xs|
    ensures forall i :: 0 <= i < |xs| ==> ys[i] == f(xs[i])
  {
    seq(|xs|, i requires 0 <= i < |xs| => f(xs[i]))
  }

  lemma MapSnoc<A, B>(f: A -> B, xs: seq<A>, n: nat)
    requires n < |xs|
    ensures Map(f, xs[..n + 1]) == Map(f, xs[..n]) + [f(xs[n])]
  {
  }

  function Sum<T>(size: T -> nat, xs: seq<T>): nat {
    if xs == [] then 0 else size(xs[0]) + Sum(size, xs[1..])
  }

  function Flatten<T>(xss: seq<seq<T>>): seq<T> {
    if xss == [] then [] else xss[0] + Flatten(xss[1..])
  }

  lemma {:induction false} FlattenSnoc<T>(xss: seq<seq<T>>, xs: seq<T>)
    ensures Flatten(xss + [xs]) == Flatten(xss) + xs
  {
    if xss == [] {
      assert (xss + [xs])[1..] == [];
    } else {
      FlattenSnoc(xss[1..], xs);
      assert (xss + [xs])[1..] == xss[1..] + [xs];
    }
  }

  // Concatenation regrouped: from the left, from the right, or as one appended block.

  lemma Regroup3<T>(a: seq<T>, b: seq<T>, c: seq<T>)
    ensures a + b + c == a + (b + c)
  {
  }

  lemma Regroup5<T>(a: seq<T>, b: seq<T>, c: seq<T>, d: seq<T>, e: seq<T>)
    ensures a + b + c + d + e == a + (b + (c + (d + e))) == a + (b + c + d + e)
  {
  }

  lemma Regroup6<T>(a: seq<T>, b: seq<T>, c: seq<T>, d: seq<T>, e: seq<T>, f: seq<T>)
    ensures a + b + c + d + e + f == a + (b + (c + (d + (e + f)))) == a + (b + c + d + e + f)
  {
  }

  lemma Regroup7<T>(a: seq<T>, b: seq<T>, c: seq<T>, d: seq<T>, e: seq<T>, f: seq<T>, g: seq<T>)
    ensures a + b + c + d + e + f + g == a + (b + (c + (d + (e + (f + g))))) == a + (b + c + d + e + f + g)
  {
  }
}

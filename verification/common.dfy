/** Small shared vocabulary: optional values, results, bytes and the
    concatenation of a sequence of sequences. */
module Common {

  /** A value that may be absent (JavaScript's `undefined`). */
  datatype Option<+T> = None | Some(value: T)

  /** The outcome of an operation that may throw. */
  datatype Result<+T, +E> = Ok(value: T) | Err(error: E)

  /** An unsigned 8-bit value, as stored in a `Uint8Array` or written by `DataView.setUint8`. */
  newtype byte = b: int | 0 <= b < 256

  /** A string as bytes, one per character, its code kept modulo 256: what
      storing `charCodeAt(i)` into a `Uint8Array` (`decode`) or through
      `DataView.setUint8` (`writeString`) leaves. The strings stored this way
      (`atob` output, ASCII chunk tags) hold only codes below 256. */
  function CodeUnitBytes(s: string): (r: seq<byte>)
    ensures |r| == |s|
    ensures forall i :: 0 <= i < |s| && s[i] as int < 256 ==> r[i] as int == s[i] as int
  {
    seq(|s|, i requires 0 <= i < |s| => (s[i] as int % 256) as byte)
  }

  /** What `JSON.parse` of an error message yields, as far as the error
      handling looks at it. */
  datatype ParsedMessage =
    | Unparsable      // `JSON.parse` throws, or reading `.error` of its result throws (`null`)
    | NoErrorMember   // parses, but the `error` member is absent or falsy
    | ErrorMember(code: Option<int>, status: Option<string>, message: Option<string>)
                      // the `error` member: `code` when it is a number equal to an
                      // integer and `status` when it is a string, `None` otherwise;
                      // `message` as `Some(String(v))` when its value `v` is truthy
                      // (a number or object is converted as a template literal
                      // converts it), `None` when it is absent or falsy

  /** A thrown value: an `Error` instance, with its message and the parse of
      that message, or anything else. */
  datatype Thrown = Error(message: string, parsed: ParsedMessage) | NonError

  /** The unsigned little-endian 16-bit field at byte offset `o`. */
  function ReadU16(w: seq<byte>, o: nat): (v: nat)
    requires o + 2 <= |w|
    ensures v < 65536
  {
    w[o] as int + 256 * w[o + 1] as int
  }

  /** The unsigned little-endian 32-bit field at byte offset `o`. */
  function ReadU32(w: seq<byte>, o: nat): nat
    requires o + 4 <= |w|
  {
    w[o] as int + 256 * (w[o + 1] as int + 256 * (w[o + 2] as int + 256 * w[o + 3] as int))
  }

  /** The signed little-endian 16-bit field at byte offset `o`, in two's
      complement: what `Int16Array` and `DataView.getInt16(o, true)` read. */
  function ReadI16(w: seq<byte>, o: nat): (v: int)
    requires o + 2 <= |w|
    ensures -32768 <= v <= 32767
  {
    var u := ReadU16(w, o);
    if u >= 32768 then u - 65536 else u
  }

  /** Concatenates a sequence of sequences, in order. */
  function Flatten<T>(xs: seq<seq<T>>): seq<T>
  {
    if xs == [] then [] else xs[0] + Flatten(xs[1..])
  }

  /** The number of elements before part `k` once the parts are concatenated. */
  function PrefixLength<T>(xs: seq<seq<T>>, k: nat): nat
    requires k <= |xs|
  {
    |Flatten(xs[..k])|
  }

  lemma {:induction false} FlattenAppend<T>(a: seq<seq<T>>, b: seq<seq<T>>)
    ensures Flatten(a + b) == Flatten(a) + Flatten(b)
  {
    if a == [] {
      assert a + b == b;
    } else {
      assert (a + b)[1..] == a[1..] + b;
      FlattenAppend(a[1..], b);
    }
  }

  lemma FlattenCons<T>(x: seq<T>, rest: seq<seq<T>>)
    ensures Flatten([x] + rest) == x + Flatten(rest)
  {
    assert ([x] + rest)[1..] == rest;
  }

  lemma FlattenSingle<T>(x: seq<T>)
    ensures Flatten([x]) == x
  {
    assert [x][1..] == [];
  }

  /** Part `k` sits, unchanged, right after the parts before it. */
  lemma {:induction false} FlattenSplit<T>(xs: seq<seq<T>>, k: nat)
    requires k < |xs|
    ensures Flatten(xs) == Flatten(xs[..k]) + xs[k] + Flatten(xs[k + 1..])
  {
    assert xs == xs[..k] + [xs[k]] + xs[k + 1..];
    FlattenAppend(xs[..k] + [xs[k]], xs[k + 1..]);
    FlattenAppend(xs[..k], [xs[k]]);
    FlattenSingle(xs[k]);
  }

  /** Cut positions of `pre + q` that come from `q` are those of `q`, shifted. */
  lemma PrefixLengthShift<T>(pre: seq<seq<T>>, q: seq<seq<T>>, j: nat)
    requires j <= |q|
    ensures PrefixLength(pre + q, |pre| + j) == |Flatten(pre)| + PrefixLength(q, j)
  {
    assert (pre + q)[..|pre| + j] == pre + q[..j];
    FlattenAppend(pre, q[..j]);
  }

  /** Cut positions never pass the total length. */
  lemma PrefixLengthBound<T>(xs: seq<seq<T>>, j: nat)
    requires j <= |xs|
    ensures PrefixLength(xs, j) <= |Flatten(xs)|
  {
    assert xs == xs[..j] + xs[j..];
    FlattenAppend(xs[..j], xs[j..]);
  }
}

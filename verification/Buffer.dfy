/** An allocation of fixed size with a write pointer, the `u_char *p; *p++ = c`
    idiom of the C sources. `room` is what is left: writing past the end is a
    precondition violation, so every caller proves that its output fits. */
module Buffer {

  class Buffer<T(0)> {
    const data: array<T>
    var len: nat
    ghost var contents: seq<T>

    ghost predicate Valid()
      reads this, data
    {
      len <= data.Length && contents == data[..len]
    }

    ghost function Capacity(): nat {
      data.Length
    }

    constructor (size: nat)
      ensures Valid() && fresh(data) && contents == [] && Capacity() == size
    {
      data := new T[size];
      len := 0;
      contents := [];
    }

    /** `*p++ = x`. */
    method Put(x: T)
      requires Valid() && |contents| < Capacity()
      modifies this, data
      ensures Valid() && contents == old(contents) + [x]
    {
      data[len] := x;
      len := len + 1;
      contents := contents + [x];
    }

    /** ngx_cpymem. */
    method Append(s: seq<T>)
      requires Valid() && |contents| + |s| <= Capacity()
      modifies this, data
      ensures Valid() && contents == old(contents) + s
      ensures |contents| == |old(contents)| + |s|
    {
      for i := 0 to |s|
        invariant Valid() && contents == old(contents) + s[..i]
      {
        Put(s[i]);
        assert s[..i + 1] == s[..i] + [s[i]];
      }
      assert s[..|s|] == s;
    }

    /** The octets written so far. */
    method Text() returns (s: seq<T>)
      requires Valid()
      ensures s == contents
    {
      s := data[..len];
    }
  }
}

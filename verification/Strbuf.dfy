/** The string buffer of the JSON module (strbuf.c): a memory block that grows by doubling. */
module Strbufs {
  import opened Basics

  type Bytes = seq<bv8>

  const STRBUF_DEFAULT_SIZE := 1023

  class Strbuf {
    var buf: array<bv8>
    var length: nat

    // There is always room for a terminating zero.
    ghost predicate Valid()
      reads this
    {
      length < buf.Length
    }

    function Contents(): Bytes
      requires Valid()
      reads this, buf
    {
      buf[..length]
    }

    constructor (len: int)
      ensures Valid() && fresh(buf) && Contents() == []
      ensures buf.Length == if len <= 0 then STRBUF_DEFAULT_SIZE else len + 1
    {
      var size := if len <= 0 then STRBUF_DEFAULT_SIZE else len + 1;
      buf, length := new bv8[size], 0;
      new;
      EnsureNull();
    }

    function EmptyLength(): nat
      requires Valid()
      reads this
    {
      buf.Length - length - 1
    }

    /** calculate_new_size: an exact size to shrink, and otherwise the old one doubled as often as it takes. */
    method CalculateNewSize(len: nat) returns (size: nat)
      requires Valid() && len > 0
      ensures buf.Length > len + 1 ==> size == len + 1
      ensures buf.Length <= len + 1 ==>
                exists k: nat :: size == Pow2(k) * buf.Length && (k > 0 ==> Pow2(k - 1) * buf.Length < len + 1 <= size)
      ensures len < size && (buf.Length < len + 1 ==> size < 2 * (len + 1))
    {
      var reqsize := len + 1;
      if buf.Length > reqsize {
        return reqsize;
      }
      size := buf.Length;
      ghost var k: nat := 0;
      assert size == Pow2(k) * buf.Length;
      while size < reqsize
        invariant buf.Length <= size == Pow2(k) * buf.Length
        invariant k > 0 ==> Pow2(k - 1) * buf.Length < reqsize && size < 2 * reqsize
        decreases reqsize - size
      {
        Twice(k, buf.Length);
        size := size * 2;
        k := k + 1;
      }
    }

    /** strbuf_resize */
    method Resize(len: nat)
      requires Valid() && 0 < len && length <= len
      modifies this`buf
      ensures Valid() && fresh(buf) && len < buf.Length && Contents() == old(Contents())
      ensures old(buf.Length) < len + 1 ==> buf.Length < 2 * (len + 1)
    {
      var newsize := CalculateNewSize(len);
      var block := new bv8[newsize];
      forall i | 0 <= i < length {
        block[i] := buf[i];
      }
      buf := block;
      assert Contents() == old(Contents());
    }

    method EnsureEmptyLength(len: nat)
      requires Valid()
      modifies this`buf
      ensures Valid() && (buf == old(buf) || fresh(buf)) && EmptyLength() >= len && Contents() == old(Contents())
    {
      if len > EmptyLength() {
        Resize(length + len);
      }
    }

    method AppendCharUnsafe(c: bv8)
      requires Valid() && EmptyLength() >= 1
      modifies this`length, buf
      ensures Valid() && Contents() == old(Contents()) + [c] && EmptyLength() == old(EmptyLength()) - 1
    {
      buf[length] := c;
      length := length + 1;
    }

    method AppendChar(c: bv8)
      requires Valid()
      modifies this, buf
      ensures Valid() && (buf == old(buf) || fresh(buf)) && Contents() == old(Contents()) + [c]
    {
      EnsureEmptyLength(1);
      AppendCharUnsafe(c);
    }

    method AppendMemUnsafe(s: Bytes)
      requires Valid() && EmptyLength() >= |s|
      modifies this`length, buf
      ensures Valid() && Contents() == old(Contents()) + s && EmptyLength() == old(EmptyLength()) - |s|
    {
      forall i | 0 <= i < |s| {
        buf[length + i] := s[i];
      }
      length := length + |s|;
    }

    method AppendMem(s: Bytes)
      requires Valid()
      modifies this, buf
      ensures Valid() && (buf == old(buf) || fresh(buf)) && Contents() == old(Contents()) + s
    {
      EnsureEmptyLength(|s|);
      AppendMemUnsafe(s);
    }

    /** strbuf_append_string: a byte at a time, with a look at the room that is left. */
    method AppendString(s: Bytes)
      requires Valid()
      modifies this, buf
      ensures Valid() && (buf == old(buf) || fresh(buf)) && Contents() == old(Contents()) + s
      ensures old(EmptyLength()) >= |s| ==> buf == old(buf)
    {
      var space := EmptyLength();
      for i := 0 to |s|
        invariant Valid() && (buf == old(buf) || fresh(buf)) && space == EmptyLength()
        invariant Contents() == old(Contents()) + s[..i]
        invariant old(EmptyLength()) >= |s| ==> buf == old(buf) && space == old(EmptyLength()) - i
      {
        if space < 1 {
          Resize(length + 1);
          space := EmptyLength();
        }
        AppendCharUnsafe(s[i]);
        space := space - 1;
      }
    }

    method Reset()
      requires Valid()
      modifies this`length
      ensures Valid() && Contents() == []
    {
      length := 0;
    }

    method EnsureNull()
      requires Valid()
      modifies buf
      ensures Contents() == old(Contents()) && buf[length] == 0
    {
      buf[length] := 0;
    }
  }

  lemma Twice(k: nat, n: nat)
    ensures Pow2(k + 1) * n == 2 * (Pow2(k) * n)
  {
  }
}

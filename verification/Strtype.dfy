/** The bounded string of src/strtype.c: `size` bytes of memory, `used` of them text, then a NUL. */
module Strtype {
  import opened Bytes
  import opened Sequences

  function Take(s: seq<byte>, n: nat): seq<byte> {
    if |s| <= n then s else s[..n]
  }

  /** What is left of a text after dropping leading bytes of `list`. */
  function TrimLeft(s: seq<byte>, list: seq<byte>): seq<byte> {
    if s != [] && s[0] in list then TrimLeft(s[1..], list) else s
  }

  function ChopRight(s: seq<byte>, list: seq<byte>): seq<byte> {
    if s != [] && s[|s| - 1] in list then ChopRight(s[..|s| - 1], list) else s
  }

  class StringT {
    const size: nat
    var used: nat
    const mem: array<byte>

    ghost predicate Valid()
      reads this, mem
    {
      && 1 <= size < 0x1_0000 && mem.Length == size
      && used < size && End(mem[..], 0) == used
    }

    ghost function Text(): seq<byte>
      requires used <= mem.Length
      reads this, mem
    {
      mem[..used]
    }

    /** src/strtype.c:16-24, then cleared: new_string leaves the memory unset. */
    constructor (n: nat)
      requires 1 <= n < 0x1_0000
      ensures Valid() && fresh(mem) && size == n && Text() == []
    {
      size := n;
      used := 0;
      mem := new byte[n](_ => NUL);
    }

    /** src/strtype.c:54-60 */
    method Clear()
      requires Valid()
      modifies this`used, mem
      ensures Valid() && Text() == []
    {
      used := 0;
      mem[0] := NUL;
    }

    /** src/strtype.c:73-90 for the string at `val` in `src`, which may be this string's own memory. The
        terminator goes to `used`, and the limit size - 1 is one that cpr_strlen observes only from 1 up:
        CopyFitsIff says when that is inside the memory. */
    method Copy(src: array<byte>, val: nat)
      requires 1 <= size < 0x1_0000 && mem.Length == size
      requires val < src.Length && End(src[..], val) < src.Length
      requires size >= 2 || src[val] == NUL
      modifies this`used, mem
      ensures used == Length(old(src[..]), val, size - 1)
      ensures Valid() && Text() == Take(old(CString(src[..], val)), size - 1)
    {
      var len := StrLen(src, val, size - 1);
      ghost var text := src[val..val + len];
      CutString(src[..], val, size);
      assert text == src[..][val..val + len];
      if src == mem && val == 0 {
        EndText(len, text);
        return;
      }
      CopyDown(src, val, len);
      EndText(len, text);
    }

    /** The loop of src/strtype.c:86-87, which may move a stretch of this string's own memory down. */
    method CopyDown(src: array<byte>, val: nat, len: nat)
      requires val + len <= src.Length && len <= mem.Length
      modifies mem
      ensures mem[..len] == old(src[val..val + len])
    {
      ghost var text := src[val..val + len];
      var i := 0;
      while i < len
        invariant i <= len
        invariant forall j :: 0 <= j < i ==> mem[j] == text[j]
        invariant forall j :: i <= j < len ==> src[val + j] == text[j]
      {
        mem[i] := src[val + i];
        i := i + 1;
      }
    }

    /** src/strtype.c:80-81, 88 and 102-103 */
    method EndText(len: nat, ghost text: seq<byte>)
      requires len == |text| < size == mem.Length < 0x1_0000 && mem[..len] == text && NUL !in text
      modifies this`used, mem
      ensures Valid() && Text() == text && used == len
    {
      assert forall j :: 0 <= j < |text| ==> mem[j] == text[j];
      mem[len] := NUL;
      used := len;
      Terminated(text);
    }

    lemma Terminated(text: seq<byte>)
      requires used == |text| < size == mem.Length < 0x1_0000
      requires forall j :: 0 <= j < |text| ==> mem[j] == text[j] && text[j] != NUL
      requires mem[used] == NUL
      ensures Valid() && Text() == text
    {
      EndAt(mem[..], 0, used);
    }

    /** src/strtype.c:92-105 */
    method Append(src: array<byte>, val: nat)
      requires Valid() && val < src.Length && End(src[..], val) < src.Length
      modifies this`used, mem
      ensures Valid() && Text() == Take(old(Text()) + old(CString(src[..], val)), size - 1)
    {
      ghost var before, was := Text(), src[..];
      if used >= size - 1 {
        assert Take(before + CString(was, val), size - 1) == before;
        return;
      }
      var room := size - used - 1;
      var len := StrLen(src, val, room);
      ghost var more := src[val..val + len];
      assert more == CString(was, val)[..len];
      CopyBehind(src, val, len);
      SliceJoin(mem[..], 0, used, used + len);
      EndText(used + len, before + more);
      TakeBoth(before, CString(was, val), size - 1, len);
    }

    /** The memcpy of src/strtype.c:100, whose two stretches never overlap. */
    method CopyBehind(src: array<byte>, val: nat, len: nat)
      requires Valid() && val + len <= src.Length && used + len < size
      requires forall j :: val <= j < val + len ==> src[j] != NUL
      modifies mem
      ensures mem[..used] == old(mem[..used])
      ensures mem[used..used + len] == old(src[val..val + len])
    {
      ghost var before := mem[..used];
      ghost var more := src[val..val + len];
      forall j | 0 <= j < len {
        mem[used + j] := src[val + j];
      }
      assert mem[..used] == before;
      assert mem[used..used + len] == more;
    }

    /** src/strchar.c:211-225 on this string's memory. */
    method StrTrim(list: seq<byte>) returns (at: nat)
      requires Valid()
      ensures at <= used && CString(mem[..], at) == TrimLeft(Text(), list)
    {
      at := 0;
      if list == [] {
        TrimNothing(Text());
        assert CString(mem[..], 0) == Text();
        return;
      }
      var len := StrLen(mem, 0, size - 1);
      assert len == used;
      while mem[at] != NUL && len > 0
        invariant at + len == used
        invariant TrimLeft(mem[at..used], list) == TrimLeft(Text(), list)
        decreases len
      {
        len := len - 1;
        if mem[at] !in list {
          break;
        }
        assert mem[at..used][1..] == mem[at + 1..used];
        at := at + 1;
      }
      assert at <= used && (at < used ==> mem[at] !in list);
      EndAt(mem[..], at, used);
      assert CString(mem[..], at) == mem[at..used];
    }

    /** src/strchar.c:227-241 on this string's memory, which it blanks from the end. */
    method StrChop(list: seq<byte>)
      requires Valid()
      modifies mem
      ensures End(mem[..], 0) < mem.Length && CString(mem[..], 0) == ChopRight(old(Text()), list)
    {
      if list == [] {
        ChopNothing(Text());
        assert CString(mem[..], 0) == Text();
        return;
      }
      var end := StrLen(mem, 0, size - 1);
      ghost var text := Text();
      assert end == |text| && text[..end] == text;
      while end > 0
        invariant 0 <= end <= |text| == used
        invariant forall j :: 0 <= j < end ==> mem[j] == text[j]
        invariant mem[end] == NUL
        invariant ChopRight(text[..end], list) == ChopRight(text, list)
      {
        if mem[end - 1] !in list {
          break;
        }
        assert text[..end][..end - 1] == text[..end - 1];
        end := end - 1;
        mem[end] := NUL;
      }
      EndAt(mem[..], 0, end);
      assert CString(mem[..], 0) == text[..end];
    }

    /** src/strtype.c:134-139 */
    method Trim(list: seq<byte>)
      requires Valid()
      modifies this`used, mem
      ensures Valid() && Text() == TrimLeft(old(Text()), list)
    {
      var at := StrTrim(list);
      assert End(mem[..], at) <= used;
      TrimShortens(Text(), list);
      Copy(mem, at);
    }

    /** src/strtype.c:141-146 */
    method Chop(list: seq<byte>)
      requires Valid()
      modifies this`used, mem
      ensures Valid() && Text() == ChopRight(old(Text()), list)
    {
      ChopShortens(Text(), list);
      StrChop(list);
      Copy(mem, 0);
    }

    /** src/strtype.c:148-158: despite its name, keeps the first `n` bytes. */
    method Tail(n: nat)
      requires Valid()
      modifies this`used, mem
      ensures Valid() && Text() == Take(old(Text()), n)
    {
      ghost var text := Text();
      var keep := if n > used then used else n;
      mem[keep] := NUL;
      used := keep;
      EndAt(mem[..], 0, keep);
      assert mem[..keep] == text[..keep];
    }

    lemma TextFrom(at: nat)
      requires Valid() && at <= used
      ensures End(mem[..], at) == used && CString(mem[..], at) == Text()[at..]
    {
      EndAt(mem[..], at, used);
    }

    /** src/strtype.c:160-168: despite its name, keeps the last `n` bytes. */
    method Head(n: nat)
      requires Valid()
      modifies this`used, mem
      ensures Valid()
      ensures Text() == if n >= |old(Text())| then old(Text()) else old(Text())[|old(Text())| - n..]
    {
      var keep := if n > used then used else n;
      TextFrom(used - keep);
      Copy(mem, used - keep);
    }
  }

  lemma CutString(s: seq<byte>, val: nat, size: nat)
    requires val < |s| && 1 <= size && (size >= 2 || s[val] == NUL)
    ensures var len := Length(s, val, size - 1);
      && len < size && val + len <= |s|
      && s[val..val + len] == Take(CString(s, val), size - 1) && NUL !in s[val..val + len]
  {
    var len := Length(s, val, size - 1);
    SliceOfSlice(s, val, End(s, val), 0, len);
  }

  lemma TakeBoth(a: seq<byte>, b: seq<byte>, n: nat, len: nat)
    requires |a| <= n && len == (if |b| < n - |a| then |b| else n - |a|)
    ensures a + b[..len] == Take(a + b, n)
  {
  }

  lemma TrimNothing(s: seq<byte>)
    ensures TrimLeft(s, []) == s
  {
  }

  lemma ChopNothing(s: seq<byte>)
    ensures ChopRight(s, []) == s
  {
  }

  /** Trimming gives the longest suffix that does not start with a byte of the list. */
  lemma {:induction false} TrimShortens(s: seq<byte>, list: seq<byte>)
    ensures var t := TrimLeft(s, list); var k := |s| - |t|;
      && k >= 0 && t == s[k..]
      && (t != [] ==> t[0] !in list)
      && forall i :: 0 <= i < k ==> s[i] in list
  {
    if s != [] && s[0] in list {
      TrimShortens(s[1..], list);
    }
  }

  /** Chopping gives the longest prefix that does not end with a byte of the list. */
  lemma {:induction false} ChopShortens(s: seq<byte>, list: seq<byte>)
    ensures var t := ChopRight(s, list);
      && |t| <= |s| && t == s[..|t|]
      && (t != [] ==> t[|t| - 1] !in list)
      && forall i :: |t| <= i < |s| ==> s[i] in list
  {
    if s != [] && s[|s| - 1] in list {
      ChopShortens(s[..|s| - 1], list);
    }
  }

  /** The index to which a copy writes its terminator, the last one it writes to, is inside the string's
      memory if and only if the capacity is 2 or more or there is nothing to copy. */
  lemma CopyFitsIff(src: seq<byte>, val: nat, size: nat)
    requires val < |src| && 1 <= size
    ensures Length(src, val, size - 1) < size <==> size >= 2 || src[val] == NUL
  {
  }
}

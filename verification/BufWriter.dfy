/** The write side of src/bufio.c: puts gathered in a buffer and flushed to a descriptor. */
module BufWriter {
  import opened Bytes
  import opened Sequences

  /** The descriptor. The script is arbitrary: each entry is what one call of write(2) would answer,
      -1 for an error, and no more than it was given. */
  class Output {
    var script: seq<int>
    ghost var written: seq<byte>
    /** How many calls of write failed. */
    ghost var failures: nat

    constructor (answers: seq<int>)
      ensures script == answers && written == [] && failures == 0
    {
      script := answers;
      written := [];
      failures := 0;
    }

    /** What a call of write would answer to `n` bytes; an exhausted script takes nothing. */
    function Next(n: nat): (r: int)
      reads this
      ensures -1 <= r <= n
    {
      Answer(script, n)
    }

    method Write(data: seq<byte>) returns (result: int)
      modifies this
      ensures result == old(Next(|data|)) && script == old(Later(script))
      ensures result >= 0 ==> written == old(written) + data[..result] && failures == old(failures)
      ensures result < 0 ==> written == old(written) && failures == old(failures) + 1
    {
      result := Next(|data|);
      script := Later(script);
      if result < 0 {
        failures := failures + 1;
      } else {
        written := written + data[..result];
      }
    }
  }

  /** The first entry of a script as the answer to `n` bytes. */
  function Answer(script: seq<int>, n: nat): (r: int)
    ensures -1 <= r <= n
  {
    if script == [] then 0 else if script[0] < 0 then -1 else if script[0] > n then n else script[0]
  }

  function Later(script: seq<int>): seq<int> {
    if script == [] then [] else script[1..]
  }

  class Writer {
    const bufsize: nat
    var put: nat
    const out: array<byte>
    const dev: Output
    /** Everything the puts accepted. */
    ghost var accepted: seq<byte>

    /** Nothing is lost as long as no write fails; and a write that fails loses bytes for good, because
        its -1 passes the comparisons of src/bufio.c:118 and 124 as the largest `size_t`. */
    ghost predicate Valid()
      reads this, out, dev
    {
      && bufsize > 0 && out.Length == bufsize && put <= bufsize
      && (dev.failures == 0 ==> dev.written + out[..put] == accepted)
      && (dev.failures > 0 ==> |dev.written| + put < |accepted|)
    }

    /** The bytes written followed by those pending are exactly what the puts accepted. */
    ghost predicate Conserved()
      requires put <= out.Length
      reads this, out, dev
    {
      dev.written + Pending() == accepted
    }

    ghost function Pending(): seq<byte>
      requires put <= out.Length
      reads this, out
    {
      out[..put]
    }

    /** src/bufio.c:57-87; the source leaves `put` unset, here it starts at 0. */
    constructor (fd: Output, size: nat)
      requires size > 0 && fd.written == [] && fd.failures == 0
      ensures Valid() && fresh(out) && dev == fd && bufsize == size
      ensures put == 0 && accepted == []
    {
      bufsize := size;
      put := 0;
      out := new byte[size](_ => NUL);
      dev := fd;
      accepted := [];
    }

    /** src/bufio.c:106-127 */
    method Flush() returns (ok: bool)
      requires Valid()
      modifies this`put, out, dev
      ensures Valid() && (Conserved() <==> dev.failures == 0)
      // nothing pending: no write, and the answer is false
      ensures old(put) == 0 ==> !ok && put == 0 && dev.written == old(dev.written) && dev.script == old(dev.script)
      ensures old(put) == 0 ==> dev.failures == old(dev.failures)
      // otherwise one write of all that is pending, whose answer decides
      ensures old(put) > 0 ==> dev.script == Later(old(dev.script))
      ensures var r := old(dev.Next(put));
        old(put) > 0 && r >= 0 ==>
          && dev.written == old(dev.written) + old(Pending())[..r] && Pending() == old(Pending())[r..]
          && (ok <==> r == old(put)) && dev.failures == old(dev.failures)
      // a failure passes for a write of everything
      ensures old(put) > 0 && old(dev.Next(put)) < 0 ==>
        ok && put == 0 && dev.written == old(dev.written) && dev.failures == old(dev.failures) + 1
    {
      ConservedIffNoFailure();
      if put == 0 {
        return false;
      }
      ghost var was, wrote := Pending(), dev.written;
      var result := dev.Write(out[..put]);
      if 0 <= result < put {
        KeepRest(result);
        SliceJoin(was, 0, result, |was|);
        Associative(wrote, was[..result], was[result..]);
        ConservedIffNoFailure();
        return false;
      }
      if result >= 0 {
        assert out[..put][..result] == out[..put] && was[result..] == [];
      }
      put := 0;
      ok := true;
      ConservedIffNoFailure();
    }

    lemma ConservedIffNoFailure()
      requires Valid()
      ensures Conserved() <==> dev.failures == 0
    {
      if dev.failures > 0 {
        assert |dev.written + Pending()| < |accepted|;
      }
    }

    /** src/bufio.c:119-121 */
    method KeepRest(n: nat)
      requires n < put <= out.Length
      modifies this`put, out
      ensures put == old(put) - n && out[..put] == old(out[..put])[n..]
    {
      ghost var was := out[..put];
      var remaining := put - n;
      forall i | 0 <= i < remaining {
        out[i] := out[n + i];
      }
      put := remaining;
      assert out[..put] == was[n..];
    }

    /** Whether a put of `n` bytes is accepted: it fits behind what is pending, or it fits the buffer and
        the flush it needs passes for complete. */
    ghost predicate Accepts(n: nat)
      reads this, dev
    {
      n <= bufsize && (n + put <= bufsize || dev.Next(put) == put || dev.Next(put) < 0)
    }

    /** src/bufio.c:129-138. A refused put adds nothing, though it may have flushed. */
    method XPut(data: seq<byte>) returns (ok: bool)
      requires Valid()
      modifies this, out, dev
      ensures Valid() && (Conserved() <==> dev.failures == 0)
      ensures ok <==> old(Accepts(|data|))
      ensures accepted == if ok then old(accepted) + data else old(accepted)
      // without a flush
      ensures |data| > bufsize || |data| + old(put) <= bufsize ==>
        dev.written == old(dev.written) && dev.script == old(dev.script) && dev.failures == old(dev.failures)
      ensures |data| > bufsize ==> Pending() == old(Pending())
      ensures |data| + old(put) <= bufsize ==> Pending() == old(Pending()) + data
      // with one
      ensures |data| <= bufsize < |data| + old(put) ==> dev.script == Later(old(dev.script))
      ensures |data| <= bufsize < |data| + old(put) && ok ==> Pending() == data
      ensures var r := old(dev.Next(put));
        |data| <= bufsize < |data| + old(put) && r >= 0 ==>
          && dev.written == old(dev.written) + old(Pending())[..r] && (!ok ==> Pending() == old(Pending())[r..])
    {
      if |data| > bufsize {
        return false;
      }
      if |data| + put > bufsize {
        ok := Flush();
        if !ok {
          return false;
        }
      }
      ghost var was := Pending();
      Append(data);
      ConservedIffNoFailure();
      ok := true;
      assert was == [] ==> was + data == data;
    }

    /** src/bufio.c:135-136 */
    method Append(data: seq<byte>)
      requires Valid() && put + |data| <= bufsize
      modifies this`put, this`accepted, out
      ensures Valid() && Pending() == old(Pending()) + data && accepted == old(accepted) + data
    {
      ghost var was := out[..put];
      forall i | 0 <= i < |data| {
        out[put + i] := data[i];
      }
      put := put + |data|;
      accepted := accepted + data;
      assert out[..put] == was + data;
    }

    /** src/bufio.c:140-144 on the string at `text`: one that does not fit is refused whole. */
    method SPut(text: seq<byte>) returns (ok: bool)
      requires Valid() && NUL !in text
      modifies this, out, dev
      ensures Valid() && (Conserved() <==> dev.failures == 0)
      ensures ok <==> old(Accepts(|text|))
      ensures accepted == if ok then old(accepted) + text else old(accepted)
      ensures ok ==> Pending() == if |text| + old(put) <= bufsize then old(Pending()) + text else text
    {
      var n := Length(text + [NUL], 0, bufsize + 1);
      EndAt(text + [NUL], 0, |text|);
      assert |text| <= bufsize ==> text[..n] == text;
      ok := XPut(text[..n]);
    }
  }
}

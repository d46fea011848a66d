/** Reading delimited pieces out of memory: cpr_lgetmem of src/memio.c. */
module Memio {
  import opened Bytes
  import opened Delimiters
  import opened Sequences

  datatype Piece = Null | Piece(at: nat, length: nat)

  class Memory {
    const data: array<byte>
    var get: nat

    ghost predicate Valid()
      reads this
    {
      get <= data.Length
    }

    /** The bytes not read yet. */
    ghost function Rest(): seq<byte>
      requires Valid()
      reads this, data
    {
      data[get..]
    }

    /** src/memio.c:10-15 */
    constructor (from: array<byte>)
      ensures Valid() && data == from && get == 0
    {
      data := from;
      get := 0;
    }

    /** The scan of src/memio.c:88-104. */
    method Scan(d: seq<byte>) returns (found: bool, i: nat)
      requires Valid()
      ensures var k := Find(Rest(), 0, d);
        if found then get <= i && i + |d| <= data.Length && k == i - get else k > |Rest()|
    {
      ghost var s := data[get..];
      i := get;
      while i + |d| <= data.Length
        invariant get <= i && i - get <= |s| + 1
        invariant Find(s, 0, d) == Find(s, i - get, d)
        decreases data.Length - i
      {
        assert s[i - get..i - get + |d|] == data[i..i + |d|];
        if data[i..i + |d|] == d {
          return true, i;
        }
        i := i + 1;
      }
      NoMatchBeyond(s, i - get, d);
      found := false;
    }

    /** src/memio.c:83-107; `outlen` says whether the caller asked for the length, and if not the piece
        is ended with a NUL written over the delimiter. NULL means that no delimiter is left. */
    method LGet(outlen: bool, delim: seq<byte>) returns (piece: Piece)
      requires Valid()
      modifies this, data
      ensures Valid()
      ensures piece.Null? ==> get == old(get) && data[..] == old(data[..])
      ensures piece.Null? <==> old(Rest()) == [] || Find(old(Rest()), 0, Used(delim)) > |old(Rest())|
      ensures piece.Piece? ==>
        && piece.at == old(get) && piece.length == Find(old(Rest()), 0, Used(delim))
        && get == piece.at + piece.length + |Used(delim)|
        && data[..] == (if outlen then old(data[..]) else old(data[..])[piece.at + piece.length := NUL])
        && data[piece.at..piece.at + piece.length] == old(Rest())[..piece.length]
        && (delim != [] || outlen ==> Rest() == old(Rest())[piece.length + |Used(delim)|..])
    {
      if get >= data.Length {
        return Null;
      }
      var d := Used(delim);
      var found, i := Scan(d);
      if !found {
        return Null;
      }
      piece := TakePiece(i, |d|, outlen);
    }

    /** src/memio.c:90-102 for a match of `n` bytes at `i`. */
    method TakePiece(i: nat, n: nat, outlen: bool) returns (piece: Piece)
      requires Valid() && get <= i < data.Length && i + n <= data.Length
      modifies this, data
      ensures Valid() && piece == Piece(old(get), i - old(get)) && get == i + n
      ensures data[..] == if outlen then old(data[..]) else old(data[..])[i := NUL]
      ensures data[piece.at..i] == old(Rest())[..piece.length]
      ensures n > 0 || outlen ==> Rest() == old(Rest())[piece.length + n..]
    {
      piece := Piece(get, i - get);
      ghost var was := data[..];
      if !outlen {
        data[i] := NUL;
      }
      assert data[..] == if outlen then was else was[i := NUL];
      assert data[get..i] == was[get..][..i - get];
      get := i + n;
      if n > 0 || outlen {
        assert data[get..] == was[piece.at..][piece.length + n..];
      }
    }

    /** Each call takes the first piece of the leftmost split of what is unread, in either mode. */
    method LGetText(outlen: bool, delim: seq<byte>) returns (piece: Piece, text: seq<byte>)
      requires Valid() && delim != []
      modifies this, data
      ensures Valid()
      ensures var before, after := SplitAt(old(Rest()), Used(delim)), SplitAt(Rest(), Used(delim));
        && before.rest == after.rest
        && (piece.Null? ==> before.pieces == after.pieces == [] && before.rest == Rest() && get == old(get))
        && (piece.Piece? ==> before.pieces == [text] + after.pieces && get > old(get))
    {
      ghost var s, d := Rest(), Used(delim);
      piece := LGet(outlen, delim);
      if piece.Piece? {
        text := data[piece.at..piece.at + piece.length];
        CutOnce(s, d, piece.length, text, Rest());
      } else {
        text := [];
        NothingToSplit(s, d);
      }
    }

    /** The loop of a caller that reads until NULL (test/memio.c:15-19). It ends, and gives the leftmost
        split whichever way the lengths are asked for; the bytes after the last delimiter stay unread. */
    method GetAll(outlen: bool, delim: seq<byte>) returns (pieces: seq<seq<byte>>)
      requires Valid() && delim != []
      modifies this, data
      ensures Valid()
      ensures Split(pieces, Rest()) == SplitAt(old(Rest()), Used(delim))
    {
      ghost var whole := SplitAt(Rest(), Used(delim));
      pieces := [];
      while true
        invariant Valid()
        invariant pieces + SplitAt(Rest(), Used(delim)).pieces == whole.pieces
        invariant SplitAt(Rest(), Used(delim)).rest == whole.rest
        decreases data.Length - get
      {
        ghost var left := SplitAt(Rest(), Used(delim)).pieces;
        var piece, text := LGetText(outlen, delim);
        if piece.Null? {
          assert left == [];
          return;
        }
        Associative(pieces, [text], SplitAt(Rest(), Used(delim)).pieces);
        pieces := pieces + [text];
      }
    }

    /** An empty delimiter is found where the cursor stands: such a loop would never end. */
    method LGetEmptyDelimiter(outlen: bool) returns (piece: Piece)
      requires Valid() && get < data.Length
      modifies this, data
      ensures Valid() && piece == Piece(get, 0) && get == old(get)
      ensures outlen || data[get] == NUL
    {
      assert IsAt(Rest(), 0, []);
      piece := LGet(outlen, []);
    }
  }

  lemma CutOnce(s: seq<byte>, d: seq<byte>, k: nat, text: seq<byte>, rest: seq<byte>)
    requires d != [] && Find(s, 0, d) == k && k + |d| <= |s| && text == s[..k] && rest == s[k + |d|..]
    ensures SplitAt(s, d).pieces == [text] + SplitAt(rest, d).pieces && SplitAt(s, d).rest == SplitAt(rest, d).rest
  {
  }

  lemma NothingToSplit(s: seq<byte>, d: seq<byte>)
    requires d != [] && (s == [] || Find(s, 0, d) > |s|)
    ensures SplitAt(s, d) == Split([], s)
  {
  }

  lemma {:induction false} NoMatchBeyond(s: seq<byte>, i: nat, d: seq<byte>)
    requires i <= |s| + 1 && i + |d| > |s|
    ensures Find(s, i, d) > |s|
  {
  }
}

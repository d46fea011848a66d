/** Where the line parser of src/keyfile.c looks behind its line. The byte tested for a closing bracket is
  counted from the opening one, with the offset of the line's last byte: in an indented line that is too
  far by the indentation. It may lie in what earlier lines left in the buffer, or outside the buffer.
 */
module KeyfileBuffer {
  import opened Bytes
  import opened Keyfile
  import opened KeyfileRoundTrip

  /** The chunks that fgets cuts a file into. */
  function Chunks(file: seq<byte>): seq<seq<byte>>
    decreases |file|
  {
    if file == [] then []
    else
      var n := ChunkLength(file, 0);
      [file[..n]] + Chunks(file[n..])
  }

  /** A line that starts, after `b` spaces, with a bracket, and whose last byte but spaces is at `l`. */
  ghost predicate Bracketed(chunk: seq<byte>, b: nat, l: nat) {
    var n := End(chunk, 0);
    && b <= l < n && chunk[n - 1] == NEWLINE
    && chunk[b] == LEFT_BRACKET && (forall i :: 0 <= i < b ==> IsSpace(chunk[i]))
    && !IsSpace(chunk[l]) && (forall i :: l < i < n ==> IsSpace(chunk[i]))
  }

  /** The byte tested is outside the buffer. */
  ghost predicate Overruns(chunk: seq<byte>) {
    exists b: nat, l: nat :: Bracketed(chunk, b, l) && b + l >= SIZE
  }

  /** The byte tested is behind the line, where fgets has not written. */
  ghost predicate TestsStale(chunk: seq<byte>) {
    exists b: nat, l: nat :: Bracketed(chunk, b, l) && |chunk| < b + l < SIZE
  }

  /** The buffer after fgets has read `chunk` into it. */
  predicate InBuffer(buf: seq<byte>, chunk: seq<byte>) {
    |buf| == SIZE && |chunk| < SIZE && buf[|chunk|] == NUL && forall i :: 0 <= i < |chunk| ==> buf[i] == chunk[i]
  }

  lemma EndOfChunk(buf: seq<byte>, chunk: seq<byte>)
    requires InBuffer(buf, chunk)
    ensures End(buf, 0) == End(chunk, 0)
  {
    EndAt(buf, 0, End(chunk, 0));
  }

  /** Where trimming stops, and what it leaves. */
  lemma {:induction false} TrimEndStops(buf: seq<byte>, n: nat)
    requires 0 < n <= |buf|
    ensures var r := TrimEnd(buf, n); var l := r.1;
      && l < n
      && (forall i :: l < i < n ==> IsSpace(buf[i]) && r.0[i] == NUL)
      && (forall i :: 0 <= i < l ==> r.0[i] == buf[i])
      && if IsSpace(buf[l]) then l == 0 && r.0[0] == NUL else r.0[l] == buf[l]
    decreases n
  {
    if IsSpace(buf[n - 1]) {
      var buf1 := buf[n - 1 := NUL];
      var r := TrimEnd(buf1, n - 1);
      assert r.0[n - 1] == r.0[n - 1..][0] == buf1[n - 1..][0] == NUL;
      assert TrimEnd(buf, n) == r;
      if n > 1 {
        TrimEndStops(buf1, n - 1);
        assert forall i :: 0 <= i < n - 1 ==> buf1[i] == buf[i];
      }
    }
  }

  /** What the parser takes for indentation and for the offset of the last byte is what the line has. */
  lemma BracketFound(buf: seq<byte>, chunk: seq<byte>, b: nat, l: nat)
    requires InBuffer(buf, chunk) && Bracketed(chunk, b, l)
    ensures End(buf, 0) < SIZE
    ensures var (buf', len) := TrimEnd(buf, End(buf, 0));
      len == l && SkipSpaces(buf', 0) == b && buf'[b] == LEFT_BRACKET
  {
    EndOfChunk(buf, chunk);
    TrimEndStops(buf, End(buf, 0));
  }

  lemma UndefinedOnlyIf(buf: seq<byte>, chunk: seq<byte>)
    requires InBuffer(buf, chunk) && End(buf, 0) < SIZE && ParseLine(buf).0.Undefined?
    ensures Overruns(chunk)
  {
    EndOfChunk(buf, chunk);
    var n := End(buf, 0);
    TrimEndStops(buf, n);
    var (buf', len) := TrimEnd(buf, n);
    var at := SkipSpaces(buf', 0);
    assert at <= len;
    assert Bracketed(chunk, at, len);
  }

  lemma UndefinedIff(buf: seq<byte>, chunk: seq<byte>)
    requires InBuffer(buf, chunk)
    ensures End(buf, 0) < SIZE
    ensures ParseLine(buf).0.Undefined? <==> Overruns(chunk)
  {
    EndOfChunk(buf, chunk);
    if b: nat, l: nat :| Bracketed(chunk, b, l) && b + l >= SIZE {
      BracketFound(buf, chunk, b, l);
    } else if ParseLine(buf).0.Undefined? {
      UndefinedOnlyIf(buf, chunk);
    }
  }

  lemma GetsChunk(rest: seq<byte>, buf: seq<byte>)
    requires |buf| == SIZE
    ensures InBuffer(Gets(rest, buf).0, rest[..ChunkLength(rest, 0)])
  {
  }

  lemma {:induction false} LinesFailIff(rest: seq<byte>, buf: seq<byte>, store: seq<Section>)
    requires |buf| == SIZE && store != []
    ensures LoadLines(rest, buf, store).Failed? <==> exists i :: 0 <= i < |Chunks(rest)| && Overruns(Chunks(rest)[i])
    decreases |rest|
  {
    if rest != [] {
      var n := ChunkLength(rest, 0);
      var (buf1, rest1) := Gets(rest, buf);
      GetsChunk(rest, buf);
      UndefinedIff(buf1, rest[..n]);
      var (line, buf2) := ParseChunk(buf1, n);
      assert Chunks(rest)[0] == rest[..n] && Chunks(rest)[1..] == Chunks(rest1);
      if !line.Undefined? {
        LinesFailIff(rest1, buf2, Extend(store, line));
      }
      assert forall i :: 0 < i < |Chunks(rest)| ==> Chunks(rest)[i] == Chunks(rest1)[i - 1];
      assert forall i :: 0 <= i < |Chunks(rest1)| ==> Chunks(rest1)[i] == Chunks(rest)[i + 1];
    }
  }

  /** A load reads outside its buffer if and only if some line of the file has an indentation and a last
      byte that add up to the buffer's size, whatever the buffer held. */
  lemma LoadFailsIff(file: seq<byte>, buf: seq<byte>)
    requires |buf| == SIZE
    ensures Load(file, buf).Failed? <==> exists i :: 0 <= i < |Chunks(file)| && Overruns(Chunks(file)[i])
  {
    LinesFailIff(file, buf, [ROOT]);
  }

  /** 48 spaces, a bracket and a newline. */
  function Indented(): seq<byte> {
    seq(48, _ => SPACE) + [LEFT_BRACKET, NEWLINE]
  }

  lemma LoneLineFails(line: seq<byte>, buf: seq<byte>)
    requires |buf| == SIZE && IsLine(line) && Overruns(line)
    ensures Load(line, buf).Failed?
  {
    ChunkIsLine(line, [], 0);
    assert line + [] == line && line[..|line|] == line;
    assert Chunks(line)[0] == line;
    LoadFailsIff(line, buf);
  }

  /** Fifty bytes are enough. */
  lemma ShortLineFails(buf: seq<byte>)
    requires |buf| == SIZE
    ensures Load(Indented(), buf).Failed?
  {
    assert End(Indented(), 0) == 50;
    assert Bracketed(Indented(), 48, 48);
    LoneLineFails(Indented(), buf);
  }

  // What earlier lines have left

  /** Two buffers that hold the same up to a NUL at `c`. */
  ghost predicate Same(a: seq<byte>, b: seq<byte>, c: nat) {
    |a| == |b| == SIZE && c < SIZE && a[c] == NUL && a[..c + 1] == b[..c + 1]
  }

  lemma SameBytes(a: seq<byte>, b: seq<byte>, c: nat)
    requires Same(a, b, c)
    ensures forall i :: 0 <= i <= c ==> a[i] == b[i]
  {
    assert forall i :: 0 <= i <= c ==> a[i] == a[..c + 1][i] && b[i] == b[..c + 1][i];
  }

  lemma SameAt(a: seq<byte>, b: seq<byte>, c: nat, i: nat)
    requires Same(a, b, c) && i <= c
    ensures a[i] == b[i]
  {
    SameBytes(a, b, c);
  }

  lemma SameEnded(a: seq<byte>, b: seq<byte>, c: nat, at: nat)
    requires Same(a, b, c) && at <= c
    ensures Same(a[at := NUL], b[at := NUL], c)
  {
    SameBytes(a, b, c);
  }

  lemma SameString(a: seq<byte>, b: seq<byte>, c: nat, i: nat)
    requires Same(a, b, c) && i <= c
    ensures End(a, i) == End(b, i) <= c && CString(a, i) == CString(b, i)
  {
    SameBytes(a, b, c);
    EndAt(b, i, End(a, i));
  }

  lemma {:induction false} SameTrim(a: seq<byte>, b: seq<byte>, c: nat, n: nat)
    requires Same(a, b, c) && n <= c
    ensures TrimEnd(a, n).1 == TrimEnd(b, n).1 && Same(TrimEnd(a, n).0, TrimEnd(b, n).0, c)
    decreases n
  {
    if n > 0 {
      SameAt(a, b, c, n - 1);
      if IsSpace(a[n - 1]) {
        SameEnded(a, b, c, n - 1);
        SameTrim(a[n - 1 := NUL], b[n - 1 := NUL], c, n - 1);
      }
    }
  }

  lemma SameStops(a: seq<byte>, b: seq<byte>, c: nat, at: nat)
    requires Same(a, b, c) && at <= c
    ensures SkipSpaces(a, at) == SkipSpaces(b, at) <= c
    ensures FindEquals(a, at) == FindEquals(b, at) <= c
    ensures at < c ==> NameStart(a, at) == NameStart(b, at) <= c
  {
    SameBytes(a, b, c);
  }

  lemma {:induction false} SameKeyEnd(a: seq<byte>, b: seq<byte>, c: nat, from: nat, at: nat)
    requires Same(a, b, c) && from <= at <= c
    ensures KeyEnd(a, from, at) == KeyEnd(b, from, at)
    decreases at
  {
    SameAt(a, b, c, at);
    if at > from && IsSpace(a[at]) {
      SameKeyEnd(a, b, c, from, at - 1);
    }
  }

  lemma {:induction false} SameBackUp(a: seq<byte>, b: seq<byte>, c: nat, at: nat, len: nat)
    requires Same(a, b, c) && at + len <= c
    ensures BackUp(a, at, len) == BackUp(b, at, len)
    decreases len
  {
    if len > 1 {
      SameAt(a, b, c, at + len - 1);
      if IsSpace(a[at + len - 1]) {
        SameBackUp(a, b, c, at, len - 1);
      }
    }
  }

  lemma SameHeader(a: seq<byte>, b: seq<byte>, c: nat, at: nat, len: nat)
    requires Same(a, b, c) && at + len <= c && at < c
    ensures ParseHeader(a, at, len).0 == ParseHeader(b, at, len).0
  {
    SameBackUp(a, b, c, at, len);
    SameStops(a, b, c, at);
    var name := BackUp(a, at, len);
    if name >= 2 {
      SameEnded(a, b, c, at + 1 + name);
      SameString(a[at + 1 + name := NUL], b[at + 1 + name := NUL], c, NameStart(a, at));
    }
  }

  lemma SameUnquote(a: seq<byte>, b: seq<byte>, c: nat, body: nat)
    requires Same(a, b, c) && body <= c
    ensures Unquote(a, body).0 == Unquote(b, body).0 <= c && Same(Unquote(a, body).1, Unquote(b, body).1, c)
  {
    SameString(a, b, c, body);
    SameBytes(a, b, c);
    var n := Length(a, body, SIZE);
    if n > 0 {
      SameEnded(a, b, c, body + n - 1);
    }
  }

  lemma SameValue(a: seq<byte>, b: seq<byte>, c: nat, at: nat, eq: nat)
    requires Same(a, b, c) && at < eq < c
    ensures End(a, eq + 1) < SIZE && End(b, eq + 1) < SIZE && ParseValue(a, at, eq).0 == ParseValue(b, at, eq).0
  {
    SameString(a, b, c, eq + 1);
    SameAt(a, b, c, eq + 1);
    var body := if a[eq + 1] != NUL && IsSpace(a[eq + 1]) then eq + 2 else eq + 1;
    SameUnquote(a, b, c, body);
    var (value, a') := Unquote(a, body);
    SameString(a', Unquote(b, body).1, c, at);
    SameString(a', Unquote(b, body).1, c, value);
  }

  lemma SameEndedKey(a: seq<byte>, b: seq<byte>, c: nat, at: nat, eq: nat)
    requires Same(a, b, c) && at < eq < c
    ensures Same(Ended(a, at, eq), Ended(b, at, eq), c)
  {
    SameKeyEnd(a, b, c, at, eq - 1);
    SameEnded(a, b, c, KeyEnd(a, at, eq - 1) + 1);
  }

  /** A key depends on nothing but where it ends and on what follows. */
  lemma KeyFollows(a: seq<byte>, b: seq<byte>, at: nat, eq: nat)
    requires |a| == |b| == SIZE && at < eq < SIZE && eq < End(a, at) < SIZE && eq < End(b, at) < SIZE
    requires KeyEnd(a, at, eq - 1) == KeyEnd(b, at, eq - 1)
    requires KeyEnd(a, at, eq - 1) != at ==>
      ParseValue(Ended(a, at, eq), at, eq).0 == ParseValue(Ended(b, at, eq), at, eq).0
    ensures ParseKey(a, at, eq).0 == ParseKey(b, at, eq).0
  {
  }

  lemma SameKey(a: seq<byte>, b: seq<byte>, c: nat, at: nat, eq: nat)
    requires Same(a, b, c) && at < eq < c
    ensures KeyEnd(a, at, eq - 1) == KeyEnd(b, at, eq - 1)
    ensures End(Ended(a, at, eq), eq + 1) < SIZE && End(Ended(b, at, eq), eq + 1) < SIZE
    ensures ParseValue(Ended(a, at, eq), at, eq).0 == ParseValue(Ended(b, at, eq), at, eq).0
  {
    SameKeyEnd(a, b, c, at, eq - 1);
    SameEndedKey(a, b, c, at, eq);
    SameValue(Ended(a, at, eq), Ended(b, at, eq), c, at, eq);
  }

  lemma SamePair(a: seq<byte>, b: seq<byte>, c: nat, at: nat)
    requires Same(a, b, c) && at < c && End(a, at) < SIZE && End(b, at) < SIZE
    ensures ParsePair(a, at).0 == ParsePair(b, at).0
  {
    SameString(a, b, c, at);
    SameStops(a, b, c, at);
    var eq := FindEquals(a, at);
    SameAt(a, b, c, eq);
    if eq != at && a[eq] != NUL {
      assert eq < End(a, at) && eq < c;
      SameKey(a, b, c, at, eq);
      KeyFollows(a, b, at, eq);
    }
  }

  /** A parser that does not look behind its line does not see what is there. */
  lemma SameTrimmed(a: seq<byte>, b: seq<byte>, c: nat, len: nat)
    requires Same(a, b, c) && End(a, 0) < SIZE && End(b, 0) < SIZE
    requires var at := SkipSpaces(a, 0); a[at] == LEFT_BRACKET ==> at + len <= c || at + len >= SIZE
    ensures ParseTrimmed(a, len).0 == ParseTrimmed(b, len).0
  {
    SameStops(a, b, c, 0);
    var at := SkipSpaces(a, 0);
    SameString(a, b, c, at);
    SameAt(a, b, c, at);
    if a[at] == LEFT_BRACKET {
      if at + len <= c {
        SameAt(a, b, c, at + len);
        SameHeader(a, b, c, at, len);
      }
    } else if IsAlnum(a[at]) {
      SamePair(a, b, c, at);
    }
  }

  lemma SameLine(a: seq<byte>, b: seq<byte>, chunk: seq<byte>)
    requires InBuffer(a, chunk) && InBuffer(b, chunk) && !TestsStale(chunk)
    ensures End(a, 0) < SIZE && End(b, 0) < SIZE && ParseLine(a).0 == ParseLine(b).0
  {
    var c := |chunk|;
    EndOfChunk(a, chunk);
    EndOfChunk(b, chunk);
    var n := End(a, 0);
    assert Same(a, b, c) && (n > 0 ==> a[n - 1] == b[n - 1]);
    if n > 0 && a[n - 1] == NEWLINE {
      SameTrim(a, b, c, n);
      TestedByte(a, chunk);
      SameString(TrimEnd(a, n).0, TrimEnd(b, n).0, c, 0);
      SameTrimmed(TrimEnd(a, n).0, TrimEnd(b, n).0, c, TrimEnd(a, n).1);
    }
  }

  lemma TestedByte(buf: seq<byte>, chunk: seq<byte>)
    requires InBuffer(buf, chunk) && !TestsStale(chunk) && End(chunk, 0) > 0 && chunk[End(chunk, 0) - 1] == NEWLINE
    ensures var cut := TrimEnd(buf, End(chunk, 0));
      var at := SkipSpaces(cut.0, 0);
      at < SIZE && (cut.0[at] == LEFT_BRACKET ==> at + cut.1 <= |chunk| || at + cut.1 >= SIZE)
  {
    EndOfChunk(buf, chunk);
    var n := End(buf, 0);
    TrimEndStops(buf, n);
    var cut := TrimEnd(buf, n);
    assert cut.0[n] == cut.0[n..][0] == buf[n..][0] == NUL;
    var at := SkipSpaces(cut.0, 0);
    if cut.0[at] == LEFT_BRACKET {
      assert Bracketed(chunk, at, cut.1);
    }
  }

  /** The line with nothing but `fill` behind it. */
  function Over(chunk: seq<byte>, fill: byte): seq<byte>
    requires |chunk| < SIZE
  {
    chunk + [NUL] + seq(SIZE - 1 - |chunk|, _ => fill)
  }

  lemma StaleDecides(chunk: seq<byte>, b: nat, l: nat, fill: byte)
    requires |chunk| < SIZE && Bracketed(chunk, b, l) && |chunk| < b + l < SIZE && fill != NUL && !IsSpace(fill)
    ensures InBuffer(Over(chunk, fill), chunk) && End(Over(chunk, fill), 0) < SIZE
    ensures ParseLine(Over(chunk, fill)).0.Header? <==> fill == RIGHT_BRACKET
  {
    var buf := Over(chunk, fill);
    BracketFound(buf, chunk, b, l);
    var n := End(buf, 0);
    EndOfChunk(buf, chunk);
    var buf' := TrimEnd(buf, n).0;
    assert buf'[b + l] == buf'[n..][b + l - n] == buf[n..][b + l - n] == fill;
    assert buf'[b + l - 1] == buf'[n..][b + l - 1 - n] == buf[n..][b + l - 1 - n];
    assert b + l - 1 == |chunk| || buf[b + l - 1] == fill;
  }

  /** What a line means does not depend on what the buffer held before if and only if the byte it tests for
      a closing bracket is not behind it in the buffer. */
  lemma MeaningIffNotStale(chunk: seq<byte>)
    requires |chunk| < SIZE
    ensures (forall a, b :: InBuffer(a, chunk) && InBuffer(b, chunk) ==> LineOf(a) == LineOf(b)) <==> !TestsStale(chunk)
  {
    if b: nat, l: nat :| Bracketed(chunk, b, l) && |chunk| < b + l < SIZE {
      StaleDecides(chunk, b, l, RIGHT_BRACKET);
      StaleDecides(chunk, b, l, STAR);
      assert LineOf(Over(chunk, RIGHT_BRACKET)) != LineOf(Over(chunk, STAR));
    } else {
      forall a, b | InBuffer(a, chunk) && InBuffer(b, chunk)
        ensures LineOf(a) == LineOf(b)
      {
        SameLine(a, b, chunk);
      }
    }
  }

  /** What a line in the buffer means; nothing if there is no line. */
  function LineOf(buf: seq<byte>): Line {
    if |buf| == SIZE && End(buf, 0) < SIZE then ParseLine(buf).0 else Skip
  }

  lemma {:induction false} LinesAlike(rest: seq<byte>, a: seq<byte>, b: seq<byte>, store: seq<Section>)
    requires |a| == |b| == SIZE && store != []
    requires forall i :: 0 <= i < |Chunks(rest)| ==> !TestsStale(Chunks(rest)[i])
    ensures LoadLines(rest, a, store) == LoadLines(rest, b, store)
    decreases |rest|
  {
    if rest != [] {
      var n := ChunkLength(rest, 0);
      var (a1, rest1) := Gets(rest, a);
      var (b1, _) := Gets(rest, b);
      GetsChunk(rest, a);
      GetsChunk(rest, b);
      assert Chunks(rest)[0] == rest[..n];
      SameLine(a1, b1, rest[..n]);
      var (line, a2) := ParseChunk(a1, n);
      var (_, b2) := ParseChunk(b1, n);
      if !line.Undefined? {
        assert forall i :: 0 <= i < |Chunks(rest1)| ==> Chunks(rest1)[i] == Chunks(rest)[i + 1];
        LinesAlike(rest1, a2, b2, Extend(store, line));
      }
    }
  }

  /** A file none of whose lines tests a byte behind it loads the same whatever the buffer held. */
  lemma LoadsAlike(file: seq<byte>, a: seq<byte>, b: seq<byte>)
    requires |a| == |b| == SIZE
    requires forall i :: 0 <= i < |Chunks(file)| ==> !TestsStale(Chunks(file)[i])
    ensures Load(file, a) == Load(file, b)
  {
    LinesAlike(file, a, b, [ROOT]);
  }
}

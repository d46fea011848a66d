/** Exactly which stores survive being saved and loaded (src/keyfile.c:59-137).

  Every name, key and value that a load yields has a shape of its own; a printed line gives back what was
  printed if and only if that has the shape; and since no line can stand in for another, a whole store
  comes back if and only if all its lines do.
 */
module KeyfileExact {
  import opened Bytes
  import opened Sequences
  import opened Keyfile
  import opened KeyfileRoundTrip

  // What a line can yield

  /** A section name as make_keysection stores it. */
  predicate StoredName(id: Text) {
    |id| <= 32 && Plain(id) && forall i :: 0 <= i < |id| ==> ToUpper(id[i]) == id[i]
  }

  /** A key as make_keydata stores it. */
  predicate StoredKey(key: Key) {
    && |key.id| <= 32 && Plain(key.id) && Plain(key.value)
    && forall i :: 0 <= i < |key.id| ==> ToLower(key.id[i]) == key.id[i]
  }

  lemma UpperStored(s: Text)
    requires Plain(s)
    ensures StoredName(Upper(s))
  {
  }

  lemma LowerStored(s: Text, value: Text)
    requires Plain(s) && Plain(value)
    ensures StoredKey(Key(Lower(s), value))
  {
  }

  /** The end of a string does not move when a byte before it changes. */
  lemma {:induction false} EndElsewhere(s: seq<byte>, i: nat, at: nat, c: byte)
    requires at < i <= |s|
    ensures End(s[at := c], i) == End(s, i)
  {
    var e := End(s, i);
    if e < |s| {
      EndAt(s[at := c], i, e);
    } else {
      var e' := End(s[at := c], i);
      assert e' == |s|;
    }
  }

  lemma {:induction false} EndLater(s: seq<byte>, i: nat, j: nat)
    requires i <= |s| && i <= j <= End(s, i)
    ensures End(s, j) == End(s, i)
  {
    var e := End(s, i);
    if e < |s| {
      EndAt(s, j, e);
    }
  }

  /** Where a value lies that starts at `body`, whether or not its quotes come off. */
  lemma Unquoted(buf: seq<byte>, body: nat) returns (j: nat)
    requires |buf| == SIZE && body < SIZE && End(buf, body) < SIZE
    ensures var (i, buf') := Unquote(buf, body);
      && body <= i <= j <= End(buf, body) && CString(buf', i) == buf[i..j]
      && (buf' == buf || (body < End(buf, body) && buf' == buf[End(buf, body) - 1 := NUL]))
  {
    var e := End(buf, body);
    var (i, buf') := Unquote(buf, body);
    if buf' == buf {
      j := e;
      EndLater(buf, body, i);
    } else {
      j := e - 1;
      EndAt(buf', i, j);
      UpdateOutside(buf, e - 1, NUL, i, j);
    }
  }

  lemma ValueParsed(buf: seq<byte>, at: nat, eq: nat, stop: nat) returns (i: nat, j: nat)
    requires |buf| == SIZE && at < stop <= eq < SIZE - 1 && End(buf, eq + 1) < SIZE
    requires buf[stop] == NUL && forall k :: at <= k < stop ==> buf[k] != NUL
    ensures eq < i <= j <= End(buf, eq + 1)
    ensures ParseValue(buf, at, eq).0 == Pair(Key(Lower(buf[at..stop]), buf[i..j]))
  {
    var body := if buf[eq + 1] != NUL && IsSpace(buf[eq + 1]) then eq + 2 else eq + 1;
    EndLater(buf, eq + 1, body);
    j := Unquoted(buf, body);
    var (value, buf') := Unquote(buf, body);
    i := value;
    EndAt(buf', at, stop);
    assert buf'[at..stop] == buf[at..stop];
  }

  lemma EndedEnds(buf: seq<byte>, at: nat, eq: nat)
    requires |buf| == SIZE && at < eq < SIZE && eq < End(buf, at) < SIZE
    ensures End(Ended(buf, at, eq), eq + 1) == End(buf, at)
  {
    EndLater(buf, at, eq + 1);
    EndElsewhere(buf, eq + 1, KeyEnd(buf, at, eq - 1) + 1, NUL);
  }

  lemma PairEnds(buf: seq<byte>, at: nat) returns (eq: nat, line: Line)
    requires |buf| == SIZE && at < SIZE && End(buf, at) < SIZE && ParsePair(buf, at).0.Pair?
    ensures eq == FindEquals(buf, at) && line == ParsePair(buf, at).0
    ensures at < eq < End(buf, at) && buf[eq] == EQUALS && KeyEnd(buf, at, eq - 1) > at
    ensures End(Ended(buf, at, eq), eq + 1) < SIZE && line == ParseValue(Ended(buf, at, eq), at, eq).0
  {
    eq := FindEquals(buf, at);
    line := ParsePair(buf, at).0;
  }

  lemma KeyBytes(buf: seq<byte>, at: nat, eq: nat)
    requires at < eq < |buf| && eq < End(buf, at)
    ensures var last, buf' := KeyEnd(buf, at, eq - 1), Ended(buf, at, eq);
      buf'[last + 1] == NUL && forall k :: at <= k < last + 1 ==> buf'[k] != NUL
  {
  }

  lemma EndedSlices(buf: seq<byte>, at: nat, eq: nat, i: nat, j: nat)
    requires at < eq < i <= j <= |buf|
    ensures var last, buf' := KeyEnd(buf, at, eq - 1), Ended(buf, at, eq);
      buf'[at..last + 1] == buf[at..last + 1] && buf'[i..j] == buf[i..j]
  {
    var last := KeyEnd(buf, at, eq - 1);
    UpdateOutside(buf, last + 1, NUL, at, last + 1);
    UpdateOutside(buf, last + 1, NUL, i, j);
  }

  lemma KeyParsed(line: Line, buf: seq<byte>, at: nat, eq: nat, last: nat) returns (i: nat, j: nat)
    requires |buf| == SIZE && at < eq < SIZE && eq < End(buf, at) < SIZE && last == KeyEnd(buf, at, eq - 1) > at
    requires line == ParseValue(Ended(buf, at, eq), at, eq).0
    ensures eq < i <= j <= End(buf, at) && line == Pair(Key(Lower(buf[at..last + 1]), buf[i..j]))
  {
    EndedEnds(buf, at, eq);
    KeyBytes(buf, at, eq);
    i, j := ValueParsed(Ended(buf, at, eq), at, eq, last + 1);
    EndedSlices(buf, at, eq, i, j);
  }

  /** What a pair consists of: the bytes from `at` to before the blanks before the first '=', and some of
      the bytes behind it. */
  lemma PairParsed(buf: seq<byte>, at: nat) returns (eq: nat, last: nat, i: nat, j: nat)
    requires |buf| == SIZE && at < SIZE && End(buf, at) < SIZE && ParsePair(buf, at).0.Pair?
    ensures eq == FindEquals(buf, at) && at < eq < End(buf, at) && buf[eq] == EQUALS
    ensures at < last < eq && !IsSpace(buf[last])
    ensures eq < i <= j <= End(buf, at)
    ensures ParsePair(buf, at).0 == Pair(Key(Lower(buf[at..last + 1]), buf[i..j]))
  {
    var line;
    eq, line := PairEnds(buf, at);
    last := KeyEnd(buf, at, eq - 1);
    i, j := KeyParsed(line, buf, at, eq, last);
  }

  /** What a section name consists of: some of the bytes behind the bracket and the blanks behind that. */
  lemma HeaderParsed(buf: seq<byte>, at: nat, len: nat) returns (start: nat, j: nat)
    requires |buf| == SIZE && at + len < SIZE && at < End(buf, at) < SIZE && ParseHeader(buf, at, len).0.Header?
    ensures start == NameStart(buf, at) && start <= j <= End(buf, at)
    ensures ParseHeader(buf, at, len).0.id == Upper(buf[start..j])
    ensures start <= at + 1 + BackUp(buf, at, len) ==> j <= at + 1 + BackUp(buf, at, len)
  {
    var name := BackUp(buf, at, len);
    start := NameStart(buf, at);
    var e := End(buf, at);
    assert !IsSpace(buf[e]);
    EndLater(buf, at, start);
    var buf' := buf[at + 1 + name := NUL];
    j := End(buf', start);
    assert buf'[e] == NUL;
    assert buf'[at + 1 + name] == NUL;
    assert buf'[start..j] == buf[start..j];
  }

  // One line

  lemma KeyLineIsLineToo(key: Key)
    requires Plain(key.id) && Plain(key.value) && |KeyLine(key)| < SIZE
    ensures IsLine(KeyLine(key))
  {
    KeyLineBytes(key);
  }

  /** A printed key line in the buffer, trimmed. */
  lemma KeyLineTrimmed(key: Key, buf: seq<byte>)
    requires StoredKey(key) && Holds(buf, KeyLine(key))
    ensures var n := |KeyLine(key)|; var buf1 := buf[n - 1 := NUL];
      && End(buf, 0) < SIZE && End(buf1, 0) == n - 1 && ParseLine(buf) == ParseTrimmed(buf1, n - 2)
      && forall i :: 0 <= i < n - 1 ==> buf1[i] == KeyLine(key)[i]
  {
    var line := KeyLine(key);
    var n := |line|;
    KeyLineBytes(key);
    KeyLineIsLineToo(key);
    TrimNewline(buf, line);
    var buf1 := buf[n - 1 := NUL];
    assert forall i :: 0 <= i < n - 1 ==> buf1[i] == buf[..n][i] == line[i];
    EndAt(buf1, 0, n - 1);
  }

  /** Only the whole of a key's bytes gives the key: nothing can have been trimmed off them. */
  lemma WholeKey(key: Key, buf: seq<byte>, at: nat)
    requires StoredKey(key) && |buf| == SIZE && at <= |key.id| < SIZE && End(buf, at) < SIZE
    requires buf[|key.id|] == EQUALS && forall i :: 0 <= i < |key.id| ==> buf[i] == key.id[i]
    requires IsAlnum(buf[at]) && ParsePair(buf, at).0 == Pair(key)
    ensures KeyShape(key.id) && |key.id| >= 2
  {
    var m := |key.id|;
    var eq, last, i, j := PairParsed(buf, at);
    assert eq <= m;
    assert m == |Lower(buf[at..last + 1])| <= last + 1 - at;
    assert at == 0 && eq == m && last == m - 1;
    ShapeOf(key, buf);
  }

  lemma ShapeOf(key: Key, buf: seq<byte>)
    requires StoredKey(key) && |key.id| >= 2 && |buf| > |key.id| && FindEquals(buf, 0) == |key.id|
    requires forall i :: 0 <= i < |key.id| ==> buf[i] == key.id[i]
    requires IsAlnum(buf[0]) && !IsSpace(buf[|key.id| - 1])
    ensures KeyShape(key.id)
  {
    assert key.id[|key.id| - 1] == buf[|key.id| - 1];
    assert forall k :: 0 <= k < |key.id| ==> key.id[k] == buf[k] != EQUALS;
  }

  /** The only way to a pair. */
  lemma TrimmedPair(buf: seq<byte>, len: nat)
    requires |buf| == SIZE && End(buf, 0) < SIZE && ParseTrimmed(buf, len).0.Pair?
    ensures var at := SkipSpaces(buf, 0);
      && at < SIZE && End(buf, at) == End(buf, 0) && IsAlnum(buf[at])
      && ParseTrimmed(buf, len) == ParsePair(buf, at)
  {
    EndLater(buf, 0, SkipSpaces(buf, 0));
  }

  lemma KeyLineOnlyIf(key: Key, buf: seq<byte>)
    requires StoredKey(key) && Holds(buf, KeyLine(key)) && End(buf, 0) < SIZE && ParseLine(buf).0 == Pair(key)
    ensures KeyShape(key.id) && |key.id| >= 2
  {
    var n, m := |KeyLine(key)|, |key.id|;
    KeyLineBytes(key);
    KeyLineTrimmed(key, buf);
    var buf1 := buf[n - 1 := NUL];
    var at := SkipSpaces(buf1, 0);
    assert buf1[m] == EQUALS && !IsSpace(EQUALS);
    TrimmedPair(buf1, n - 2);
    WholeKey(key, buf1, at);
  }

  /** A printed key line gives the key and its value again, whatever quotes the value contains, if and
      only if the key has the shape of one and two bytes or more. */
  lemma KeyLineLoadsIff(key: Key, buf: seq<byte>)
    requires StoredKey(key) && Holds(buf, KeyLine(key))
    ensures End(buf, 0) < SIZE
    ensures ParseLine(buf).0 == Pair(key) <==> KeyShape(key.id) && |key.id| >= 2
  {
    KeyLineTrimmed(key, buf);
    if KeyShape(key.id) && |key.id| >= 2 {
      KeyLineLoads(key, buf);
    } else if ParseLine(buf).0 == Pair(key) {
      KeyLineOnlyIf(key, buf);
    }
  }

  lemma HeaderLineBytes(id: Text)
    requires StoredName(id)
    ensures var line, m := HeaderLine(id), |id|;
      && IsLine(line) && |line| == m + 3 && line[0] == LEFT_BRACKET && line[m + 1] == RIGHT_BRACKET
      && forall i :: 0 <= i < m ==> line[i + 1] == id[i]
  {
  }

  /** A printed section line in the buffer, trimmed. */
  lemma HeaderLineTrimmed(id: Text, buf: seq<byte>)
    requires StoredName(id) && Holds(buf, HeaderLine(id))
    ensures var m := |id|; var buf1 := buf[m + 2 := NUL];
      && End(buf, 0) < SIZE && End(buf1, 0) == m + 2 && ParseLine(buf) == ParseHeader(buf1, 0, m + 1)
      && buf1[0] == LEFT_BRACKET && buf1[m + 1] == RIGHT_BRACKET
      && forall i :: 0 <= i < m ==> buf1[i + 1] == id[i]
  {
    var line, m := HeaderLine(id), |id|;
    HeaderLineBytes(id);
    TrimNewline(buf, line);
    var buf1 := buf[m + 2 := NUL];
    assert forall i :: 0 <= i < m + 2 ==> buf1[i] == buf[..m + 3][i] == line[i];
    EndAt(buf1, 0, m + 2);
    BracketFirst(buf1, m + 1);
  }

  lemma BracketFirst(buf: seq<byte>, len: nat)
    requires |buf| == SIZE && End(buf, 0) < SIZE && len < SIZE
    requires buf[0] == LEFT_BRACKET && buf[len] == RIGHT_BRACKET
    ensures ParseTrimmed(buf, len) == ParseHeader(buf, 0, len)
  {
    assert SkipSpaces(buf, 0) == 0 by {
      assert !IsSpace(LEFT_BRACKET);
    }
  }

  lemma HeaderLineOnlyIf(id: Text, buf: seq<byte>)
    requires StoredName(id) && Holds(buf, HeaderLine(id)) && End(buf, 0) < SIZE && ParseLine(buf).0 == Header(id)
    ensures NameShape(id) && |id| >= 2
  {
    var m := |id|;
    HeaderLineTrimmed(id, buf);
    var buf1 := buf[m + 2 := NUL];
    var name := BackUp(buf1, 0, m + 1);
    var start, j := HeaderParsed(buf1, 0, m + 1);
    assert start <= name by {
      assert !IsSpace(buf1[name]);
    }
    assert |Upper(buf1[start..j])| <= j - start;
    assert start == 1 && name == m;
    assert buf1[1] == id[0] && buf1[m] == id[m - 1];
  }

  /** A printed section line names the section again if and only if the name has the shape of one and
      two bytes or more. */
  lemma HeaderLineLoadsIff(id: Text, buf: seq<byte>)
    requires StoredName(id) && Holds(buf, HeaderLine(id))
    ensures End(buf, 0) < SIZE
    ensures ParseLine(buf).0 == Header(id) <==> NameShape(id) && |id| >= 2
  {
    HeaderLineTrimmed(id, buf);
    if NameShape(id) && |id| >= 2 {
      HeaderLineLoads(id, buf);
    } else if ParseLine(buf).0 == Header(id) {
      HeaderLineOnlyIf(id, buf);
    }
  }

  /** A key that does not start with a letter or digit is stored and printed, and its line passed over. */
  lemma LostKey(buf: seq<byte>)
    requires Holds(buf, KeyLine(Key([95, 120], [49])))
    ensures End(buf, 0) < SIZE && ParseLine(buf).0 == Skip
  {
    var key := Key([95, 120], [49]);
    KeyLineBytes(key);
    KeyLineTrimmed(key, buf);
    var buf1 := buf[|KeyLine(key)| - 1 := NUL];
    assert buf1[0] == 95;
    assert SkipSpaces(buf1, 0) == 0;
  }

  /** A name with a space in front is stored and printed, and comes back without it. */
  lemma ChangedName(buf: seq<byte>)
    requires Holds(buf, HeaderLine([SPACE, 65, 66]))
    ensures End(buf, 0) < SIZE && ParseLine(buf).0 == Header([65, 66])
  {
    var id := [SPACE, 65, 66];
    HeaderLineTrimmed(id, buf);
    var buf1 := buf[5 := NUL];
    assert buf1[1] == id[0] && buf1[2] == id[1] && buf1[3] == id[2];
    assert BackUp(buf1, 0, 4) == 3 && NameStart(buf1, 0) == 2;
    var buf2 := buf1[4 := NUL];
    EndAt(buf2, 2, 4);
    assert CString(buf2, 2) == [65, 66];
    UpperFixed([65, 66]);
  }

  /** A value is printed in a quote that it does not contain, unless it contains both, and in single quotes
      if it contains none of those. */
  lemma PrintedQuote(key: Key)
    ensures var quote := KeyLine(key)[|key.id| + 1];
      && (quote in key.value <==> SINGLE_QUOTE in key.value && DOUBLE_QUOTE in key.value)
      && (SINGLE_QUOTE !in key.value ==> quote == SINGLE_QUOTE)
  {
    KeyLineBytes(key);
  }

  // What a whole file yields

  lemma {:induction false} TrimEndBytes(buf: seq<byte>, len: nat)
    requires len <= |buf|
    ensures forall j :: 0 <= j < |buf| ==> TrimEnd(buf, len).0[j] == buf[j] || TrimEnd(buf, len).0[j] == NUL
    ensures len > 0 && IsSpace(buf[len - 1]) ==> TrimEnd(buf, len).0[len - 1] == NUL
    decreases len
  {
    if len > 0 && IsSpace(buf[len - 1]) {
      var buf1 := buf[len - 1 := NUL];
      TrimEndBytes(buf1, len - 1);
      var r := TrimEnd(buf1, len - 1).0;
      assert r[len - 1] == r[len - 1..][0] == buf1[len - 1..][0];
    }
  }

  lemma SlicePlain(buf: seq<byte>, i: nat, j: nat)
    requires i <= j <= End(buf, 0) && |buf| == SIZE
    requires forall k :: 0 <= k < End(buf, 0) ==> buf[k] != NEWLINE
    ensures Plain(buf[i..j])
  {
  }

  /** A name, key or value found in a line is one that can be stored. */
  ghost predicate Yields(line: Line, n: nat) {
    match line
    case Header(id) => StoredName(id)
    case Pair(key) => StoredKey(key) && |key.value| <= n
    case _ => true
  }

  /** A name made of bytes before `e`, or a key and a value so made. */
  ghost predicate MadeOf(line: Line, buf: seq<byte>, e: nat)
    requires e <= |buf|
  {
    match line
    case Header(id) => exists i, j :: 0 <= i <= j <= e && id == Upper(buf[i..j])
    case Pair(key) =>
      && (exists i, j :: 0 <= i <= j <= e && key.id == Lower(buf[i..j]))
      && (exists i, j :: 0 <= i <= j <= e && key.value == buf[i..j])
    case _ => true
  }

  lemma HeaderMade(buf: seq<byte>, at: nat, len: nat)
    requires |buf| == SIZE && at + len < SIZE && at < End(buf, at) < SIZE
    ensures MadeOf(ParseHeader(buf, at, len).0, buf, End(buf, at))
  {
    if ParseHeader(buf, at, len).0.Header? {
      var start, j := HeaderParsed(buf, at, len);
    }
  }

  lemma PairMade(buf: seq<byte>, at: nat)
    requires |buf| == SIZE && at < SIZE && End(buf, at) < SIZE
    ensures MadeOf(ParsePair(buf, at).0, buf, End(buf, at))
  {
    if ParsePair(buf, at).0.Pair? {
      var eq, last, i, j := PairParsed(buf, at);
      assert at <= last + 1 <= End(buf, at) && i <= j <= End(buf, at);
    }
  }

  lemma TrimmedMade(buf: seq<byte>, len: nat)
    requires |buf| == SIZE && End(buf, 0) < SIZE
    ensures MadeOf(ParseTrimmed(buf, len).0, buf, End(buf, 0))
  {
    var at := SkipSpaces(buf, 0);
    EndLater(buf, 0, at);
    if buf[at] == LEFT_BRACKET && at + len < SIZE {
      HeaderMade(buf, at, len);
    } else if IsAlnum(buf[at]) {
      PairMade(buf, at);
    }
  }

  lemma MadeYields(line: Line, buf: seq<byte>, n: nat)
    requires |buf| == SIZE && End(buf, 0) <= n && MadeOf(line, buf, End(buf, 0))
    requires forall k :: 0 <= k < End(buf, 0) ==> buf[k] != NEWLINE
    ensures Yields(line, n)
  {
    match line
    case Header(id) =>
      var i, j :| 0 <= i <= j <= End(buf, 0) && id == Upper(buf[i..j]);
      SlicePlain(buf, i, j);
      UpperStored(buf[i..j]);
    case Pair(key) =>
      var i, j :| 0 <= i <= j <= End(buf, 0) && key.id == Lower(buf[i..j]);
      var v, w :| 0 <= v <= w <= End(buf, 0) && key.value == buf[v..w];
      SlicePlain(buf, i, j);
      SlicePlain(buf, v, w);
      LowerStored(buf[i..j], buf[v..w]);
    case _ =>
  }

  lemma LineYields(buf: seq<byte>, n: nat)
    requires |buf| == SIZE && n < SIZE && buf[n] == NUL && forall k :: 0 <= k < n - 1 ==> buf[k] != NEWLINE
    ensures End(buf, 0) < SIZE && Yields(ParseLine(buf).0, n)
  {
    var e := End(buf, 0);
    if e > 0 && buf[e - 1] == NEWLINE {
      var (buf', len) := TrimEnd(buf, e);
      TrimEndBytes(buf, e);
      assert buf'[e] == buf'[e..][0] == buf[e..][0] == NUL;
      TrimmedMade(buf', len);
      MadeYields(ParseTrimmed(buf', len).0, buf', n);
    }
  }

  /** Every section but the first and every key is one that can be stored, and the first section is "*". */
  ghost predicate Stored(store: seq<Section>) {
    && store != [] && store[0].id == [STAR]
    && (forall i :: 0 < i < |store| ==> StoredName(store[i].id))
    && (forall i, k :: 0 <= i < |store| && 0 <= k < |store[i].keys| ==> StoredKey(store[i].keys[k]))
  }

  lemma ExtendStored(store: seq<Section>, line: Line, n: nat)
    requires Stored(store) && Yields(line, n)
    ensures Stored(Extend(store, line))
  {
  }

  lemma {:induction false} LinesStored(rest: seq<byte>, buf: seq<byte>, store: seq<Section>)
    requires |buf| == SIZE && Stored(store)
    ensures var r := LoadLines(rest, buf, store); r.Loaded? ==> Stored(r.store)
    decreases |rest|
  {
    if rest != [] {
      var n := ChunkLength(rest, 0);
      var (buf1, rest1) := Gets(rest, buf);
      assert forall k :: 0 <= k < n ==> buf1[k] == rest[k];
      LineYields(buf1, n);
      var (line, buf2) := ParseChunk(buf1, n);
      if !line.Undefined? {
        ExtendStored(store, line, n);
        LinesStored(rest1, buf2, Extend(store, line));
      }
    }
  }

  // Nothing that was loaded is lost again

  /** `later` has the sections of `store`, and their keys at the end of its own. */
  ghost predicate Grows(store: seq<Section>, later: seq<Section>) {
    && 0 < |store| <= |later|
    && (forall i :: 0 <= i < |store| - 1 ==> later[i] == store[i])
    && var s, l := store[|store| - 1], later[|store| - 1];
      l.id == s.id && |s.keys| <= |l.keys| && l.keys[|l.keys| - |s.keys|..] == s.keys
  }

  lemma GrowsOn(a: seq<Section>, b: seq<Section>, c: seq<Section>)
    requires Grows(a, b) && Grows(b, c)
    ensures Grows(a, c)
  {
    if |b| == |a| {
      var x, y, z := a[|a| - 1].keys, b[|a| - 1].keys, c[|a| - 1].keys;
      assert z[|z| - |x|..] == z[|z| - |y|..][|y| - |x|..];
    }
  }

  lemma ExtendGrows(store: seq<Section>, line: Line)
    requires store != []
    ensures Grows(store, Extend(store, line))
  {
    var keys := store[|store| - 1].keys;
    if line.Pair? {
      assert ([line.key] + keys)[1..] == keys;
    }
  }

  lemma {:induction false} LinesGrow(rest: seq<byte>, buf: seq<byte>, store: seq<Section>)
    requires |buf| == SIZE && store != []
    ensures var r := LoadLines(rest, buf, store); r.Loaded? ==> Grows(store, r.store)
    decreases |rest|
  {
    if rest != [] {
      var (buf1, rest1) := Gets(rest, buf);
      var (line, buf2) := ParseChunk(buf1, ChunkLength(rest, 0));
      if !line.Undefined? {
        var more := Extend(store, line);
        ExtendGrows(store, line);
        LinesGrow(rest1, buf2, more);
        var r := LoadLines(rest1, buf2, more);
        if r.Loaded? {
          GrowsOn(store, more, r.store);
        }
      }
    }
  }

  predicate IsItem(line: Line) {
    line.Header? || line.Pair?
  }

  /** Two lines that lead to one store were the same. */
  lemma SameItem(store: seq<Section>, a: Line, b: Line, later: seq<Section>)
    requires store != [] && IsItem(a) && IsItem(b)
    requires Grows(Extend(store, a), later) && Grows(Extend(store, b), later)
    ensures a == b
  {
    var n := |store|;
    var old', l := store[n - 1].keys, later[n - 1].keys;
    if a.Pair? && b.Pair? {
      assert l[|l| - |old'| - 1..][0] == a.key;
      assert l[|l| - |old'| - 1..][0] == b.key;
    } else if a.Header? && b.Header? {
      assert later[n].id == a.id && later[n].id == b.id;
    }
  }

  // One printed line after another

  /** A newline at the end and nowhere else, and no NUL; of any length. */
  ghost predicate IsPrinted(line: seq<byte>) {
    && line != [] && line[|line| - 1] == NEWLINE
    && (forall i :: 0 <= i < |line| - 1 ==> line[i] != NEWLINE)
    && NUL !in line
  }

  lemma {:induction false} FullChunk(s: seq<byte>, n: nat)
    requires n < SIZE <= |s| && forall i :: 0 <= i < SIZE - 1 ==> s[i] != NEWLINE
    ensures ChunkLength(s, n) == SIZE - 1
    decreases SIZE - n
  {
    if n < SIZE - 1 {
      FullChunk(s, n + 1);
    }
  }

  /** The first chunk of a line that does not fit is passed over. */
  lemma LongLine(line: seq<byte>, rest: seq<byte>, buf: seq<byte>, store: seq<Section>) returns (buf1: seq<byte>)
    requires IsPrinted(line) && |line| >= SIZE && |buf| == SIZE && store != []
    ensures |buf1| == SIZE && IsPrinted(line[SIZE - 1..])
    ensures LoadLines(line + rest, buf, store) == LoadLines(line[SIZE - 1..] + rest, buf1, store)
  {
    var s, n := line + rest, SIZE - 1;
    FullChunk(s, 0);
    buf1 := s[..n] + [NUL] + buf[n + 1..];
    assert forall i :: 0 <= i < n ==> buf1[i] == line[i];
    EndAt(buf1, 0, n);
    assert ParseLine(buf1) == (Skip, buf1);
    assert s[n..] == line[n..] + rest;
  }

  /** Whatever its length, a line yields what its last chunk does, and no more. */
  lemma {:induction false} OneLine(line: seq<byte>, rest: seq<byte>, buf: seq<byte>, store: seq<Section>)
    returns (tail: seq<byte>, buf1: seq<byte>, buf2: seq<byte>)
    requires IsPrinted(line) && |buf| == SIZE && store != []
    ensures IsLine(tail) && Holds(buf1, tail) && End(buf1, 0) < SIZE && |buf2| == SIZE
    ensures if |line| < SIZE then tail == line else |tail| + SIZE - 1 <= |line|
    ensures LoadLines(line + rest, buf, store) ==
      var e := ParseLine(buf1).0; if e.Undefined? then Failed else LoadLines(rest, buf2, Extend(store, e))
    decreases |line|
  {
    if |line| < SIZE {
      tail := line;
      buf1 := GetsLine(line, rest, buf);
      buf2 := LoadOne(line, rest, buf, store, buf1);
    } else {
      var buf0 := LongLine(line, rest, buf, store);
      tail, buf1, buf2 := OneLine(line[SIZE - 1..], rest, buf0, store);
    }
  }

  lemma LoadOne(line: seq<byte>, rest: seq<byte>, buf: seq<byte>, store: seq<Section>, buf1: seq<byte>)
    returns (buf2: seq<byte>)
    requires IsLine(line) && |buf| == SIZE && store != []
    requires Gets(line + rest, buf) == (buf1, rest) && Holds(buf1, line)
    ensures End(buf1, 0) < SIZE && |buf2| == SIZE
    ensures LoadLines(line + rest, buf, store) ==
      var e := ParseLine(buf1).0; if e.Undefined? then Failed else LoadLines(rest, buf2, Extend(store, e))
  {
    ChunkIsLine(line, rest, 0);
    assert |line + rest| > 0;
    buf2 := ParseChunk(buf1, |line|).1;
  }

  /** What save prints for a section or a key. */
  function Text1(item: Line): seq<byte> {
    match item
    case Header(id) => HeaderLine(id)
    case Pair(key) => KeyLine(key)
    case _ => []
  }

  function Print(items: seq<Line>): seq<byte> {
    if items == [] then [] else Text1(items[0]) + Print(items[1..])
  }

  /** What the items make of a store when every one of them loads. */
  function Build(store: seq<Section>, items: seq<Line>): (r: seq<Section>)
    requires store != []
    ensures r != []
    decreases |items|
  {
    if items == [] then store else Build(Extend(store, items[0]), items[1..])
  }

  /** The number of sections and keys. */
  function Size(store: seq<Section>): nat {
    if store == [] then 0 else Size(store[..|store| - 1]) + 1 + |store[|store| - 1].keys|
  }

  lemma ExtendSize(store: seq<Section>, line: Line)
    requires store != []
    ensures Size(Extend(store, line)) == Size(store) + if IsItem(line) then 1 else 0
  {
    var n := |store|;
    if line.Header? {
      assert (store + [Section(line.id, [])])[..n] == store;
    } else if line.Pair? {
      assert Extend(store, line)[..n - 1] == store[..n - 1];
    }
  }

  ghost predicate StoredItem(item: Line) {
    (item.Header? && StoredName(item.id)) || (item.Pair? && StoredKey(item.key))
  }

  lemma ItemPrinted(item: Line)
    requires StoredItem(item)
    ensures IsPrinted(Text1(item))
  {
    if item.Pair? {
      KeyLineBytes(item.key);
    }
  }

  lemma {:induction false} BuildGrows(store: seq<Section>, items: seq<Line>)
    requires store != [] && forall i :: 0 <= i < |items| ==> StoredItem(items[i])
    ensures Grows(store, Build(store, items)) && Size(Build(store, items)) == Size(store) + |items|
    decreases |items|
  {
    if items != [] {
      var more := Extend(store, items[0]);
      ExtendSize(store, items[0]);
      ExtendGrows(store, items[0]);
      BuildGrows(more, items[1..]);
      GrowsOn(store, more, Build(more, items[1..]));
    }
  }

  /** So many lines, so many items at most. */
  lemma {:induction false} PrintedSize(items: seq<Line>, buf: seq<byte>, store: seq<Section>)
    requires |buf| == SIZE && store != [] && forall i :: 0 <= i < |items| ==> StoredItem(items[i])
    ensures var r := LoadLines(Print(items), buf, store); r.Loaded? ==> Size(r.store) <= Size(store) + |items|
    decreases |items|
  {
    if items != [] {
      ItemPrinted(items[0]);
      var tail, buf1, buf2 := OneLine(Text1(items[0]), Print(items[1..]), buf, store);
      var e := ParseLine(buf1).0;
      if !e.Undefined? {
        ExtendSize(store, e);
        PrintedSize(items[1..], buf2, Extend(store, e));
      }
    }
  }

  ghost predicate ItemOk(item: Line) {
    match item
    case Header(id) => NameShape(id) && |id| >= 2
    case Pair(key) => PairShape(key) && |key.id| >= 2
    case _ => false
  }

  /** The end of a line that does not fit has room for no such value. */
  lemma NotFromTail(key: Key, tail: seq<byte>, buf: seq<byte>)
    requires StoredKey(key) && IsLine(tail) && Holds(buf, tail) && End(buf, 0) < SIZE
    requires ParseLine(buf).0 == Pair(key)
    ensures |KeyLine(key)| < |tail| + SIZE - 1
  {
    KeyLineBytes(key);
    assert forall k :: 0 <= k < |tail| ==> buf[k] == buf[..|tail|][k] == tail[k];
    LineYields(buf, |tail|);
  }

  /** A line, or the end of one that does not fit, gives its item back only if that is well formed. */
  lemma ItemOnlyIf(item: Line, tail: seq<byte>, buf: seq<byte>)
    requires StoredItem(item) && IsLine(tail) && Holds(buf, tail) && End(buf, 0) < SIZE
    requires if |Text1(item)| < SIZE then tail == Text1(item) else |tail| + SIZE - 1 <= |Text1(item)|
    requires ParseLine(buf).0 == item
    ensures ItemOk(item)
  {
    if item.Header? {
      HeaderLineBytes(item.id);
      HeaderLineOnlyIf(item.id, buf);
    } else {
      NotFromTail(item.key, tail, buf);
      KeyLineOnlyIf(item.key, buf);
    }
  }

  /** If the printed items load as they should, each of them did. */
  lemma {:induction false} ItemsOnlyIf(items: seq<Line>, buf: seq<byte>, store: seq<Section>)
    requires |buf| == SIZE && store != [] && forall i :: 0 <= i < |items| ==> StoredItem(items[i])
    requires LoadLines(Print(items), buf, store) == Loaded(Build(store, items))
    ensures forall i :: 0 <= i < |items| ==> ItemOk(items[i])
    decreases |items|
  {
    if items != [] {
      var item, more := items[0], items[1..];
      ItemPrinted(item);
      var tail, buf1, buf2 := OneLine(Text1(item), Print(more), buf, store);
      var e := ParseLine(buf1).0;
      FirstLoads(item, e, more, buf2, store);
      ItemOnlyIf(item, tail, buf1);
      ItemsOnlyIf(more, buf2, Extend(store, item));
    }
  }

  /** A line that yields nothing leaves one item too few, and one that yields another the wrong one. */
  lemma FirstLoads(item: Line, e: Line, more: seq<Line>, buf: seq<byte>, store: seq<Section>)
    requires |buf| == SIZE && store != [] && !e.Undefined?
    requires StoredItem(item) && forall i :: 0 <= i < |more| ==> StoredItem(more[i])
    requires LoadLines(Print(more), buf, Extend(store, e)) == Loaded(Build(Extend(store, item), more))
    ensures e == item
  {
    var later := Build(Extend(store, item), more);
    BuildGrows(Extend(store, item), more);
    PrintedSize(more, buf, Extend(store, e));
    LinesGrow(Print(more), buf, Extend(store, e));
    ExtendSize(store, item);
    ExtendSize(store, e);
    SameItem(store, e, item, later);
  }

  // Stores

  function KeyItems(keys: seq<Key>): (r: seq<Line>)
    ensures |r| == |keys| && forall i :: 0 <= i < |keys| ==> r[i] == Pair(keys[i])
  {
    seq(|keys|, i requires 0 <= i < |keys| => Pair(keys[i]))
  }

  function Items(sections: seq<Section>): seq<Line> {
    if sections == [] then []
    else [Header(sections[0].id)] + KeyItems(sections[0].keys) + Items(sections[1..])
  }

  lemma {:induction false} KeysPrinted(keys: seq<Key>, more: seq<Line>)
    ensures Print(KeyItems(keys) + more) == SaveKeys(keys) + Print(more)
    decreases |keys|
  {
    if keys == [] {
      assert KeyItems(keys) + more == more;
    } else {
      var items := KeyItems(keys) + more;
      assert items[0] == Pair(keys[0]) && items[1..] == KeyItems(keys[1..]) + more;
      KeysPrinted(keys[1..], more);
    }
  }

  lemma {:induction false} SectionsPrinted(sections: seq<Section>)
    ensures Print(Items(sections)) == Save(sections)
    decreases |sections|
  {
    if sections != [] {
      var s, items := sections[0], Items(sections);
      assert items[0] == Header(s.id) && items[1..] == KeyItems(s.keys) + Items(sections[1..]);
      KeysPrinted(s.keys, Items(sections[1..]));
      SectionsPrinted(sections[1..]);
    }
  }

  lemma {:induction false} KeysBuilt(store: seq<Section>, keys: seq<Key>, more: seq<Line>)
    requires store != []
    ensures Build(store, KeyItems(keys) + more) == Build(WithKeys(store, keys), more)
    decreases |keys|
  {
    if keys == [] {
      assert KeyItems(keys) + more == more;
      WithNoKeys(store);
    } else {
      var items := KeyItems(keys) + more;
      assert items[0] == Pair(keys[0]) && items[1..] == KeyItems(keys[1..]) + more;
      KeysBuilt(Extend(store, Pair(keys[0])), keys[1..], more);
      WithKeysInFront(store, keys);
    }
  }

  lemma {:induction false} SectionsBuilt(store: seq<Section>, sections: seq<Section>)
    requires store != []
    ensures Build(store, Items(sections)) == store + ReverseAll(sections)
    decreases |sections|
  {
    if sections == [] {
      assert store + ReverseAll(sections) == store;
    } else {
      var s, items := sections[0], Items(sections);
      assert items[0] == Header(s.id) && items[1..] == KeyItems(s.keys) + Items(sections[1..]);
      KeysBuilt(Extend(store, Header(s.id)), s.keys, Items(sections[1..]));
      FillSection(store, s);
      SectionsBuilt(store + [Section(s.id, ReverseKeys(s.keys))], sections[1..]);
      ReverseBehind(store, sections);
    }
  }

  lemma {:induction false} ItemsStored(sections: seq<Section>)
    requires forall i :: 0 <= i < |sections| ==> StoredName(sections[i].id)
    requires forall i, k :: 0 <= i < |sections| && 0 <= k < |sections[i].keys| ==> StoredKey(sections[i].keys[k])
    ensures forall i :: 0 <= i < |Items(sections)| ==> StoredItem(Items(sections)[i])
    decreases |sections|
  {
    if sections != [] {
      ItemsStored(sections[1..]);
    }
  }

  lemma {:induction false} SectionsOk(sections: seq<Section>)
    requires forall i :: 0 <= i < |Items(sections)| ==> ItemOk(Items(sections)[i])
    ensures forall i :: 0 <= i < |sections| ==> SectionOk(sections[i])
    decreases |sections|
  {
    if sections != [] {
      var s, items := sections[0], Items(sections);
      assert items[0] == Header(s.id);
      assert forall k :: 0 <= k < |s.keys| ==> items[k + 1] == Pair(s.keys[k]);
      var more := Items(sections[1..]);
      assert forall k :: 0 <= k < |more| ==> more[k] == items[k + 1 + |s.keys|];
      SectionsOk(sections[1..]);
    }
  }

  /** What is printed behind the line of the first section. */
  function Behind(store: seq<Section>): seq<Line>
    requires store != []
  {
    KeyItems(store[0].keys) + Items(store[1..])
  }

  lemma BehindPrinted(store: seq<Section>)
    requires store != [] && store[0].id == [STAR]
    ensures Save(store) == HeaderLine([STAR]) + Print(Behind(store))
    ensures Build([ROOT], Behind(store)) == ReverseAll(store)
  {
    var s, more := store[0], store[1..];
    KeysPrinted(s.keys, Items(more));
    SectionsPrinted(more);
    Associative(HeaderLine(s.id), SaveKeys(s.keys), Save(more));
    KeysBuilt([ROOT], s.keys, Items(more));
    FillSection([], s);
    assert [] + [ROOT] == [ROOT];
    assert [] + [Section(s.id, ReverseKeys(s.keys))] == [Section(s.id, ReverseKeys(s.keys))];
    SectionsBuilt([Section(s.id, ReverseKeys(s.keys))], more);
    ReverseFirst(store);
  }

  lemma BehindStored(store: seq<Section>)
    requires Stored(ReverseAll(store))
    ensures store != [] && forall i :: 0 <= i < |Behind(store)| ==> StoredItem(Behind(store)[i])
  {
    forall i, k | 0 <= i < |store| && 0 <= k < |store[i].keys|
      ensures StoredKey(store[i].keys[k])
    {
      var keys := ReverseAll(store)[i].keys;
      assert store[i].keys[k] == keys[|keys| - 1 - k];
    }
    forall i | 0 < i < |store|
      ensures StoredName(store[i].id)
    {
      assert ReverseAll(store)[i].id == store[i].id;
    }
    ItemsStored(store[1..]);
  }

  lemma BehindOk(store: seq<Section>)
    requires store != [] && store[0].id == [STAR]
    requires forall i :: 0 <= i < |Behind(store)| ==> ItemOk(Behind(store)[i])
    ensures StoreOk(store)
  {
    var keys, more := store[0].keys, Items(store[1..]);
    assert forall k :: 0 <= k < |keys| ==> Behind(store)[k] == Pair(keys[k]);
    assert forall k :: 0 <= k < |more| ==> more[k] == Behind(store)[k + |keys|];
    SectionsOk(store[1..]);
    assert forall i :: 0 < i < |store| ==> store[i] == store[1..][i - 1];
  }

  lemma RoundTripOnlyIf(store: seq<Section>, buf: seq<byte>)
    requires |buf| == SIZE && Load(Save(store), buf) == Loaded(ReverseAll(store))
    ensures StoreOk(store)
  {
    LinesStored(Save(store), buf, [ROOT]);
    BehindStored(store);
    BehindPrinted(store);
    var buf1 := LoadHeader([STAR], Print(Behind(store)), buf, [ROOT]);
    ItemsOnlyIf(Behind(store), buf1, [ROOT]);
    BehindOk(store);
  }

  /** Any store at all comes back from a save and a load, each list of keys reversed, if and only if its
      first section is "*" and every other name, key and value is well formed. */
  lemma RoundTripIff(store: seq<Section>, buf: seq<byte>)
    requires |buf| == SIZE
    ensures Load(Save(store), buf) == Loaded(ReverseAll(store)) <==> StoreOk(store)
  {
    if StoreOk(store) {
      LoadAfterSave(store, buf);
    } else if Load(Save(store), buf) == Loaded(ReverseAll(store)) {
      RoundTripOnlyIf(store, buf);
    }
  }

  /** A load yields only what make_keysection and make_keydata store. */
  lemma LoadsStored(file: seq<byte>, buf: seq<byte>)
    requires |buf| == SIZE
    ensures var r := Load(file, buf); r.Loaded? ==> Stored(r.store)
  {
    LinesStored(file, buf, [ROOT]);
  }
}

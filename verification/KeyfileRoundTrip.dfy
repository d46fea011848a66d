/** Saving a keyfile and loading it back (src/keyfile.c:59-137). */
module KeyfileRoundTrip {
  import opened Bytes
  import opened Keyfile

  /** load_keyfile's loop; `buf` is whatever the line buffer holds. */
  function LoadLines(rest: seq<byte>, buf: seq<byte>, store: seq<Section>): Outcome
    requires |buf| == SIZE && store != []
    decreases |rest|
  {
    if rest == [] then Loaded(store)
    else
      var (buf1, rest1) := Gets(rest, buf);
      var (line, buf2) := ParseChunk(buf1, ChunkLength(rest, 0));
      if line.Undefined? then Failed else LoadLines(rest1, buf2, Extend(store, line))
  }

  function ParseChunk(buf: seq<byte>, n: nat): (r: (Line, seq<byte>))
    requires |buf| == SIZE && n < SIZE && buf[n] == NUL
    ensures |r.1| == SIZE
  {
    ParseLine(buf)
  }

  const ROOT := Section([STAR], [])

  function Load(file: seq<byte>, buf: seq<byte>): Outcome
    requires |buf| == SIZE
  {
    LoadLines(file, buf, [ROOT])
  }

  /** src/keyfile.c:129-132 */
  function KeyLine(key: Key): seq<byte> {
    var quote := if SINGLE_QUOTE in key.value then DOUBLE_QUOTE else SINGLE_QUOTE;
    key.id + [EQUALS, quote] + key.value + [quote, NEWLINE]
  }

  function HeaderLine(id: Text): seq<byte> {
    [LEFT_BRACKET] + id + [RIGHT_BRACKET, NEWLINE]
  }

  function SaveKeys(keys: seq<Key>): seq<byte> {
    if keys == [] then [] else KeyLine(keys[0]) + SaveKeys(keys[1..])
  }

  function Save(store: seq<Section>): seq<byte> {
    if store == [] then []
    else HeaderLine(store[0].id) + SaveKeys(store[0].keys) + Save(store[1..])
  }

  // What can be saved and loaded back.

  predicate Plain(s: Text) {
    forall i :: 0 <= i < |s| ==> s[i] != NUL && s[i] != NEWLINE
  }

  /** A section name but for its length: upper case, no space at either end. */
  predicate NameShape(id: Text) {
    && 1 <= |id| <= 32 && Plain(id)
    && !IsSpace(id[0]) && !IsSpace(id[|id| - 1])
    && forall i :: 0 <= i < |id| ==> ToUpper(id[i]) == id[i]
  }

  /** A key but for its length: lower case, a letter or digit first, no '=', no space at the end. */
  predicate KeyShape(id: Text) {
    && 1 <= |id| <= 32 && Plain(id)
    && IsAlnum(id[0]) && !IsSpace(id[|id| - 1])
    && forall i :: 0 <= i < |id| ==> ToLower(id[i]) == id[i] && id[i] != EQUALS
  }

  predicate PairShape(key: Key) {
    KeyShape(key.id) && Plain(key.value) && |KeyLine(key)| < SIZE
  }

  predicate KeysOk(keys: seq<Key>) {
    forall i :: 0 <= i < |keys| ==> PairShape(keys[i]) && |keys[i].id| >= 2
  }

  predicate SectionOk(s: Section) {
    NameShape(s.id) && |s.id| >= 2 && KeysOk(s.keys)
  }

  predicate StoreOk(store: seq<Section>) {
    && store != [] && store[0].id == [STAR]
    && KeysOk(store[0].keys)
    && (forall i :: 0 < i < |store| ==> SectionOk(store[i]))
  }

  // One line

  /** The buffer after fgets has read `line` into it. */
  predicate Holds(buf: seq<byte>, line: seq<byte>) {
    |buf| == SIZE && |line| < SIZE && buf[..|line|] == line && buf[|line|] == NUL
  }

  /** Only the newline at its end, and no NUL. */
  predicate IsLine(line: seq<byte>) {
    && 0 < |line| < SIZE && line[|line| - 1] == NEWLINE
    && (forall i :: 0 <= i < |line| - 1 ==> line[i] != NEWLINE)
    && (forall i :: 0 <= i < |line| ==> line[i] != NUL)
  }

  lemma TrimNewline(buf: seq<byte>, line: seq<byte>)
    requires IsLine(line) && Holds(buf, line) && |line| >= 2 && !IsSpace(line[|line| - 2])
    ensures End(buf, 0) == |line| && buf[|line| - 1] == NEWLINE
    ensures TrimEnd(buf, |line|) == (buf[|line| - 1 := NUL], |line| - 2)
  {
    assert forall i :: 0 <= i < |line| ==> buf[i] == buf[..|line|][i] == line[i];
    EndAt(buf, 0, |line|);
    var buf1 := buf[|line| - 1 := NUL];
    assert TrimEnd(buf1, |line| - 1) == (buf1, |line| - 2);
  }

  lemma UpperFixed(id: Text)
    requires |id| <= 32 && forall i :: 0 <= i < |id| ==> ToUpper(id[i]) == id[i]
    ensures Upper(id) == id
  {
  }

  lemma LowerFixed(id: Text)
    requires |id| <= 32 && forall i :: 0 <= i < |id| ==> ToLower(id[i]) == id[i]
    ensures Lower(id) == id
  {
  }

  /** A printed section line names the section again if and only if the name has two bytes or more; a
      line with a one-byte name is passed over. */
  lemma HeaderLineLoads(id: Text, buf: seq<byte>)
    requires NameShape(id) && Holds(buf, HeaderLine(id))
    ensures End(buf, 0) < SIZE
    ensures ParseLine(buf).0 == if |id| >= 2 then Header(id) else Skip
  {
    var line := HeaderLine(id);
    var m := |id|;
    assert IsLine(line);
    TrimNewline(buf, line);
    var buf1 := buf[m + 2 := NUL];
    assert forall i :: 0 <= i < |line| ==> buf[i] == buf[..|line|][i] == line[i];
    assert buf1[0] == LEFT_BRACKET && buf1[m + 1] == RIGHT_BRACKET && buf1[m] == id[m - 1] && buf1[1] == id[0];
    assert ParseLine(buf) == ParseHeader(buf1, 0, m + 1);
    assert BackUp(buf1, 0, m + 1) == m;
    if m >= 2 {
      NameLoads(id, buf1);
    }
  }

  lemma NameBetween(id: Text, buf2: seq<byte>)
    requires Plain(id) && |id| + 1 < |buf2| && buf2[|id| + 1] == NUL
    requires forall i :: 1 <= i < |id| + 1 ==> buf2[i] == id[i - 1]
    ensures CString(buf2, 1) == id
  {
    EndAt(buf2, 1, |id| + 1);
    assert buf2[1..|id| + 1] == id;
  }

  /** The part of HeaderLineLoads behind the brackets. */
  lemma NameLoads(id: Text, buf1: seq<byte>)
    requires NameShape(id) && |buf1| == SIZE
    requires forall i :: 1 <= i < |id| + 1 ==> buf1[i] == id[i - 1]
    ensures var buf2 := buf1[|id| + 1 := NUL];
      NameStart(buf1, 0) == 1 && Upper(CString(buf2, 1)) == id
  {
    var m := |id|;
    assert buf1[1] == id[0];
    assert NameStart(buf1, 0) == 1;
    NameBetween(id, buf1[m + 1 := NUL]);
    UpperFixed(id);
  }

  /** The bytes of a printed key line. */
  lemma KeyLineBytes(key: Key)
    ensures var line := KeyLine(key); var n, m := |line|, |key.id|;
      && n == m + |key.value| + 4
      && (forall i :: 0 <= i < m ==> line[i] == key.id[i])
      && line[m] == EQUALS && line[m + 1] == line[n - 2] && (line[m + 1] == SINGLE_QUOTE || line[m + 1] == DOUBLE_QUOTE)
      && (forall i :: m + 2 <= i < n - 2 ==> line[i] == key.value[i - m - 2])
      && line[n - 1] == NEWLINE
  {
  }

  lemma KeyLineIsLine(key: Key)
    requires PairShape(key)
    ensures IsLine(KeyLine(key))
  {
    KeyLineBytes(key);
  }

  /** A printed key line gives the key and its value again, whatever quotes the value contains, if and
      only if the key has two bytes or more; a line with a one-byte key is passed over. */
  lemma KeyLineLoads(key: Key, buf: seq<byte>)
    requires PairShape(key) && Holds(buf, KeyLine(key))
    ensures End(buf, 0) < SIZE
    ensures ParseLine(buf).0 == if |key.id| >= 2 then Pair(key) else Skip
  {
    var line := KeyLine(key);
    var n := |line|;
    KeyLineBytes(key);
    KeyLineIsLine(key);
    TrimNewline(buf, line);
    var buf1 := buf[n - 1 := NUL];
    assert forall i :: 0 <= i < n - 1 ==> buf1[i] == buf[..n][i] == line[i];
    assert buf1[0] == key.id[0];
    assert SkipSpaces(buf1, 0) == 0;
    EndAt(buf1, 0, n - 1);
    assert ParseLine(buf) == ParsePair(buf1, 0);
    PairLoads(key, buf1);
  }

  /** The part of KeyLineLoads behind the trimming. */
  lemma PairLoads(key: Key, buf1: seq<byte>)
    requires PairShape(key) && |buf1| == SIZE && End(buf1, 0) < SIZE
    requires var n := |KeyLine(key)|;
      (forall i :: 0 <= i < n - 1 ==> buf1[i] == KeyLine(key)[i]) && buf1[n - 1] == NUL
    ensures ParsePair(buf1, 0).0 == if |key.id| >= 2 then Pair(key) else Skip
  {
    var m := |key.id|;
    KeyLineBytes(key);
    assert FindEquals(buf1, 0) == m;
    assert buf1[m - 1] == key.id[m - 1];
    assert KeyEnd(buf1, 0, m - 1) == m - 1;
    if m >= 2 {
      ValueLoads(key, buf1[m := NUL]);
      PairGoesOn(buf1, m);
    }
  }

  lemma PairGoesOn(buf1: seq<byte>, m: nat)
    requires |buf1| == SIZE && 2 <= m < SIZE && buf1[m] == EQUALS
    requires End(buf1, 0) < SIZE && FindEquals(buf1, 0) == m && KeyEnd(buf1, 0, m - 1) == m - 1
    ensures End(buf1[m := NUL], m + 1) < SIZE && ParsePair(buf1, 0) == ParseValue(buf1[m := NUL], 0, m)
  {
    assert m < End(buf1, 0);
    assert Ended(buf1, 0, m) == buf1[m := NUL];
  }

  /** A key line without its newline, the key ended. */
  predicate KeyEnded(key: Key, buf2: seq<byte>) {
    var n := |KeyLine(key)|;
    && |buf2| == SIZE && n < SIZE
    && (forall i :: 0 <= i < n - 1 && i != |key.id| ==> buf2[i] == KeyLine(key)[i])
    && buf2[|key.id|] == NUL && buf2[n - 1] == NUL
  }

  lemma ValueLoads(key: Key, buf2: seq<byte>)
    requires PairShape(key) && KeyEnded(key, buf2)
    ensures End(buf2, |key.id| + 1) < SIZE && ParseValue(buf2, 0, |key.id|).0 == Pair(key)
  {
    QuotesComeOff(key, buf2);
    var n, m := |KeyLine(key)|, |key.id|;
    StringsLeft(key, buf2[n - 2 := NUL]);
    assert buf2[m + 1] == KeyLine(key)[m + 1] && !IsSpace(buf2[m + 1]);
  }

  /** Unquoting what was quoted. */
  lemma QuotesComeOff(key: Key, buf2: seq<byte>)
    requires PairShape(key) && KeyEnded(key, buf2)
    ensures var n, m := |KeyLine(key)|, |key.id|;
      End(buf2, m + 1) < SIZE && Unquote(buf2, m + 1) == (m + 2, buf2[n - 2 := NUL])
  {
    var n, m := |KeyLine(key)|, |key.id|;
    KeyLineBytes(key);
    EndAt(buf2, m + 1, n - 1);
  }

  lemma StringsLeft(key: Key, buf3: seq<byte>)
    requires PairShape(key) && |buf3| == SIZE
    requires var n := |KeyLine(key)|; var m := |key.id|;
      (forall i :: 0 <= i < n - 2 && i != m ==> buf3[i] == KeyLine(key)[i]) && buf3[m] == NUL && buf3[n - 2] == NUL
    ensures Lower(CString(buf3, 0)) == key.id && CString(buf3, |key.id| + 2) == key.value
  {
    var n, m := |KeyLine(key)|, |key.id|;
    KeyLineBytes(key);
    EndAt(buf3, 0, m);
    assert buf3[0..m] == key.id;
    LowerFixed(key.id);
    EndAt(buf3, m + 2, n - 2);
    assert buf3[m + 2..n - 2] == key.value;
  }

  // Many lines

  lemma {:induction false} ChunkIsLine(line: seq<byte>, rest: seq<byte>, n: nat)
    requires IsLine(line) && n < |line|
    ensures ChunkLength(line + rest, n) == |line|
    decreases |line| - n
  {
    assert (line + rest)[n] == line[n];
    if n < |line| - 1 {
      ChunkIsLine(line, rest, n + 1);
    }
  }

  /** fgets gives a line that fits back whole, and leaves what follows it. */
  lemma GetsLine(line: seq<byte>, rest: seq<byte>, buf: seq<byte>) returns (buf1: seq<byte>)
    requires IsLine(line) && |buf| == SIZE
    ensures Gets(line + rest, buf) == (buf1, rest) && Holds(buf1, line)
  {
    ChunkIsLine(line, rest, 0);
    buf1 := line + [NUL] + buf[|line| + 1..];
    assert (line + rest)[..|line|] == line && (line + rest)[|line|..] == rest;
  }

  /** Loading past one line that the parser understands. */
  lemma LoadPast(line: seq<byte>, rest: seq<byte>, buf: seq<byte>, store: seq<Section>, buf1: seq<byte>)
    returns (buf2: seq<byte>)
    requires IsLine(line) && |buf| == SIZE && store != []
    requires Gets(line + rest, buf) == (buf1, rest) && Holds(buf1, line) && End(buf1, 0) < SIZE
    requires !ParseLine(buf1).0.Undefined?
    ensures |buf2| == SIZE
    ensures LoadLines(line + rest, buf, store) == LoadLines(rest, buf2, Extend(store, ParseLine(buf1).0))
  {
    buf2 := ParseLine(buf1).1;
    ChunkIsLine(line, rest, 0);
    assert |line + rest| > 0;
  }

  function ReverseKeys(keys: seq<Key>): (r: seq<Key>)
    ensures |r| == |keys|
    ensures forall i :: 0 <= i < |keys| ==> r[i] == keys[|keys| - 1 - i]
  {
    seq(|keys|, i requires 0 <= i < |keys| => keys[|keys| - 1 - i])
  }

  function WithKeys(store: seq<Section>, keys: seq<Key>): seq<Section>
    requires store != []
  {
    var last := store[|store| - 1];
    store[|store| - 1 := last.(keys := ReverseKeys(keys) + last.keys)]
  }

  lemma {:induction false} LoadKeys(keys: seq<Key>, rest: seq<byte>, buf: seq<byte>, store: seq<Section>)
    returns (buf': seq<byte>)
    requires KeysOk(keys) && |buf| == SIZE && store != []
    ensures |buf'| == SIZE
    ensures LoadLines(SaveKeys(keys) + rest, buf, store) == LoadLines(rest, buf', WithKeys(store, keys))
    decreases |keys|
  {
    if keys == [] {
      buf' := buf;
      assert SaveKeys(keys) + rest == rest;
      WithNoKeys(store);
    } else {
      var more := SaveKeys(keys[1..]) + rest;
      assert SaveKeys(keys) + rest == KeyLine(keys[0]) + more;
      var buf1 := LoadKey(keys[0], more, buf, store);
      WithKeysInFront(store, keys);
      buf' := LoadKeys(keys[1..], rest, buf1, Extend(store, Pair(keys[0])));
    }
  }

  lemma WithKeysInFront(store: seq<Section>, keys: seq<Key>)
    requires store != [] && keys != []
    ensures WithKeys(Extend(store, Pair(keys[0])), keys[1..]) == WithKeys(store, keys)
  {
    var old' := store[|store| - 1].keys;
    assert ReverseKeys(keys) == ReverseKeys(keys[1..]) + [keys[0]];
    assert ReverseKeys(keys) + old' == ReverseKeys(keys[1..]) + ([keys[0]] + old');
  }

  lemma WithNoKeys(store: seq<Section>)
    requires store != []
    ensures WithKeys(store, []) == store
  {
    assert ReverseKeys([]) + store[|store| - 1].keys == store[|store| - 1].keys;
  }

  lemma LoadKey(key: Key, more: seq<byte>, buf: seq<byte>, store: seq<Section>) returns (buf': seq<byte>)
    requires PairShape(key) && |key.id| >= 2 && |buf| == SIZE && store != []
    ensures |buf'| == SIZE
    ensures LoadLines(KeyLine(key) + more, buf, store) == LoadLines(more, buf', Extend(store, Pair(key)))
  {
    KeyLineIsLine(key);
    var buf1 := GetsLine(KeyLine(key), more, buf);
    KeyLineLoads(key, buf1);
    buf' := LoadPast(KeyLine(key), more, buf, store, buf1);
  }

  lemma LoadHeader(id: Text, more: seq<byte>, buf: seq<byte>, store: seq<Section>) returns (buf': seq<byte>)
    requires NameShape(id) && |buf| == SIZE && store != []
    ensures |buf'| == SIZE
    ensures LoadLines(HeaderLine(id) + more, buf, store) ==
      LoadLines(more, buf', Extend(store, if |id| >= 2 then Header(id) else Skip))
  {
    assert IsLine(HeaderLine(id));
    var buf1 := GetsLine(HeaderLine(id), more, buf);
    HeaderLineLoads(id, buf1);
    buf' := LoadPast(HeaderLine(id), more, buf, store, buf1);
  }

  function ReverseAll(store: seq<Section>): (r: seq<Section>)
    ensures |r| == |store|
    ensures forall i :: 0 <= i < |store| ==> r[i] == Section(store[i].id, ReverseKeys(store[i].keys))
  {
    seq(|store|, i requires 0 <= i < |store| => Section(store[i].id, ReverseKeys(store[i].keys)))
  }

  /** Sections after the first load behind what is already there. */
  lemma {:induction false} LoadSections(sections: seq<Section>, buf: seq<byte>, store: seq<Section>)
    requires |buf| == SIZE && store != []
    requires forall i :: 0 <= i < |sections| ==> SectionOk(sections[i])
    ensures LoadLines(Save(sections), buf, store) == Loaded(store + ReverseAll(sections))
    decreases |sections|
  {
    if sections == [] {
      assert store + ReverseAll(sections) == store;
    } else {
      var s := sections[0];
      assert Save(sections) == HeaderLine(s.id) + (SaveKeys(s.keys) + Save(sections[1..]));
      var buf1 := LoadHeader(s.id, SaveKeys(s.keys) + Save(sections[1..]), buf, store);
      var store1 := store + [Section(s.id, [])];
      var buf2 := LoadKeys(s.keys, Save(sections[1..]), buf1, store1);
      FillSection(store, s);
      var s' := Section(s.id, ReverseKeys(s.keys));
      LoadSections(sections[1..], buf2, store + [s']);
      ReverseBehind(store, sections);
    }
  }

  lemma FillSection(store: seq<Section>, s: Section)
    ensures WithKeys(store + [Section(s.id, [])], s.keys) == store + [Section(s.id, ReverseKeys(s.keys))]
  {
    var bare := store + [Section(s.id, [])];
    assert bare[|bare| - 1] == Section(s.id, []);
    assert ReverseKeys(s.keys) + [] == ReverseKeys(s.keys);
  }

  lemma ReverseBehind(store: seq<Section>, sections: seq<Section>)
    requires sections != []
    ensures var s := sections[0];
      store + [Section(s.id, ReverseKeys(s.keys))] + ReverseAll(sections[1..]) == store + ReverseAll(sections)
  {
    ReverseFirst(sections);
  }

  lemma ReverseFirst(sections: seq<Section>)
    requires sections != []
    ensures ReverseAll(sections) == [Section(sections[0].id, ReverseKeys(sections[0].keys))] + ReverseAll(sections[1..])
  {
  }

  /** Loading what save printed gives the same sections in order, each with its keys reversed. */
  lemma LoadAfterSave(store: seq<Section>, buf: seq<byte>)
    requires StoreOk(store) && |buf| == SIZE
    ensures Load(Save(store), buf) == Loaded(ReverseAll(store))
  {
    var s := store[0];
    var body := SaveKeys(s.keys) + Save(store[1..]);
    assert Save(store) == HeaderLine(s.id) + body;
    var buf1 := LoadHeader(s.id, body, buf, [ROOT]);
    LoadRoot(store, buf1);
  }

  /** The first section's own line is passed over, its keys go to the section every load starts with. */
  lemma LoadRoot(store: seq<Section>, buf: seq<byte>)
    requires StoreOk(store) && |buf| == SIZE
    ensures LoadLines(SaveKeys(store[0].keys) + Save(store[1..]), buf, [ROOT]) == Loaded(ReverseAll(store))
  {
    var s := store[0];
    var buf1 := LoadKeys(s.keys, Save(store[1..]), buf, [ROOT]);
    FillSection([], s);
    assert [] + [ROOT] == [ROOT];
    assert [] + [Section(s.id, ReverseKeys(s.keys))] == [Section(s.id, ReverseKeys(s.keys))];
    LoadSections(store[1..], buf1, [Section(s.id, ReverseKeys(s.keys))]);
    ReverseFirst(store);
  }

  lemma KeysReversed(keys: seq<Key>)
    requires KeysOk(keys)
    ensures KeysOk(ReverseKeys(keys))
  {
    var back := ReverseKeys(keys);
    forall i | 0 <= i < |back|
      ensures PairShape(back[i]) && |back[i].id| >= 2
    {
      assert back[i] == keys[|keys| - 1 - i];
    }
  }

  lemma ReversedTwice(keys: seq<Key>)
    ensures ReverseKeys(ReverseKeys(keys)) == keys
  {
  }

  lemma SectionReversed(s: Section)
    requires SectionOk(s)
    ensures SectionOk(Section(s.id, ReverseKeys(s.keys)))
  {
    KeysReversed(s.keys);
  }

  lemma ReversedOk(store: seq<Section>)
    requires StoreOk(store)
    ensures StoreOk(ReverseAll(store)) && ReverseAll(ReverseAll(store)) == store
  {
    KeysReversed(store[0].keys);
    forall i | 0 < i < |store|
      ensures SectionOk(ReverseAll(store)[i])
    {
      SectionReversed(store[i]);
    }
    forall i | 0 <= i < |store|
      ensures ReverseAll(ReverseAll(store))[i] == store[i]
    {
      ReversedTwice(store[i].keys);
    }
  }

  /** Two round trips are the identity. */
  lemma TwoRoundTrips(store: seq<Section>, buf: seq<byte>, again: seq<byte>)
    requires StoreOk(store) && |buf| == SIZE == |again|
    ensures var once := Load(Save(store), buf);
      once.Loaded? && Load(Save(once.store), again) == Loaded(store)
  {
    LoadAfterSave(store, buf);
    ReversedOk(store);
    LoadAfterSave(ReverseAll(store), again);
  }
}

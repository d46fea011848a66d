/** src/keyfile.c as it runs: the line parser working in place on `linebuf`, the printer, and the two
  list walks, each tied to the function that says what it computes.
 */
module KeyfileInPlace {
  import opened Bytes
  import opened Keyfile
  import opened KeyfileRoundTrip

  /** src/keyfile.c:73-74 */
  method TrimEndLoop(buf: array<byte>, n: nat) returns (len: nat)
    requires n <= buf.Length
    modifies buf
    ensures (buf[..], len) == TrimEnd(old(buf[..]), n)
  {
    len := n;
    while len > 0
      invariant len <= n
      invariant TrimEnd(buf[..], len) == TrimEnd(old(buf[..]), n)
    {
      len := len - 1;
      if !IsSpace(buf[len]) {
        return;
      }
      ghost var was := buf[..];
      buf[len] := NUL;
      assert buf[..] == was[len := NUL];
    }
  }

  /** src/keyfile.c:76-77 */
  method SkipSpacesLoop(buf: array<byte>) returns (at: nat)
    requires End(buf[..], 0) < buf.Length
    ensures at == SkipSpaces(buf[..], 0) < buf.Length
  {
    at := 0;
    while buf[at] != NUL && IsSpace(buf[at])
      invariant at < buf.Length && SkipSpaces(buf[..], 0) == SkipSpaces(buf[..], at)
      invariant at <= End(buf[..], 0)
      decreases buf.Length - at
    {
      at := at + 1;
    }
  }

  /** src/keyfile.c:81-82 */
  method BackUpLoop(buf: array<byte>, at: nat, len: nat) returns (name: nat)
    requires at + len < buf.Length
    ensures name == BackUp(buf[..], at, len)
  {
    name := len;
    while name > 1
      invariant 0 <= name <= len
      invariant BackUp(buf[..], at, name) == BackUp(buf[..], at, len)
    {
      name := name - 1;
      if !IsSpace(buf[at + name]) {
        return;
      }
    }
  }

  /** src/keyfile.c:85-86: `end` goes down as the start goes up. */
  method NameStartLoop(buf: array<byte>, at: nat, name: nat) returns (lp: nat, end: nat)
    requires 1 <= name && at + name < buf.Length && !IsSpace(buf[at + name])
    ensures lp == NameStart(buf[..], at) && lp + end == at + 1 + name
  {
    lp, end := at + 1, name;
    while IsSpace(buf[lp])
      invariant at < lp <= at + name && lp + end == at + 1 + name
      invariant NameStart(buf[..], at) == NameStart(buf[..], lp - 1)
      decreases buf.Length - lp
    {
      end := end - 1;
      lp := lp + 1;
    }
  }

  /** src/keyfile.c:81-89 */
  method HeaderInPlace(buf: array<byte>, at: nat, len: nat) returns (line: Line)
    requires at + len < buf.Length
    modifies buf
    ensures (line, buf[..]) == ParseHeader(old(buf[..]), at, len)
  {
    var name := BackUpLoop(buf, at, len);
    if name < 2 {
      return Skip;
    }
    var lp, end := NameStartLoop(buf, at, name);
    ghost var was := buf[..];
    buf[lp + end] := NUL;
    assert buf[..] == was[at + 1 + name := NUL];
    line := Header(Upper(CString(buf[..], lp)));
  }

  /** src/keyfile.c:105-112 */
  method UnquoteInPlace(buf: array<byte>, start: nat) returns (body: nat)
    requires start < buf.Length == SIZE && End(buf[..], start) < buf.Length
    modifies buf
    ensures (body, buf[..]) == Unquote(old(buf[..]), start)
  {
    body := start;
    var n := StrLen(buf, body, SIZE);
    if (buf[body] == SINGLE_QUOTE || buf[body] == DOUBLE_QUOTE) && buf[body + n - 1] == buf[body] {
      ghost var was := buf[..];
      buf[body + n - 1] := NUL;
      assert buf[..] == was[body + n - 1 := NUL];
      if buf[body] != NUL {
        body := body + 1;
      }
    }
  }

  /** src/keyfile.c:94-96 */
  method FindEqualsLoop(buf: array<byte>, lp: nat) returns (kw: nat)
    requires lp < buf.Length && End(buf[..], lp) < buf.Length
    ensures kw == FindEquals(buf[..], lp) <= End(buf[..], lp)
  {
    kw := lp;
    while buf[kw] != NUL && buf[kw] != EQUALS
      invariant lp <= kw <= End(buf[..], lp)
      invariant FindEquals(buf[..], lp) == FindEquals(buf[..], kw)
      decreases buf.Length - kw
    {
      kw := kw + 1;
    }
  }

  /** src/keyfile.c:100-101 */
  method KeyEndLoop(buf: array<byte>, lp: nat, from: nat) returns (kw: nat)
    requires lp <= from < buf.Length
    ensures kw == KeyEnd(buf[..], lp, from)
  {
    kw := from;
    while kw > lp && IsSpace(buf[kw])
      invariant lp <= kw <= from
      invariant KeyEnd(buf[..], lp, from) == KeyEnd(buf[..], lp, kw)
    {
      kw := kw - 1;
    }
  }

  /** src/keyfile.c:104-113 */
  method ValueInPlace(buf: array<byte>, lp: nat, eq: nat) returns (line: Line)
    requires lp < eq < buf.Length - 1 && buf.Length == SIZE && End(buf[..], eq + 1) < buf.Length
    modifies buf
    ensures (line, buf[..]) == ParseValue(old(buf[..]), lp, eq)
  {
    var body := eq + 1;
    if buf[body] != NUL && IsSpace(buf[body]) {
      body := body + 1;
    }
    body := UnquoteInPlace(buf, body);
    line := Pair(Key(Lower(CString(buf[..], lp)), CString(buf[..], body)));
  }

  /** src/keyfile.c:99-103: the key's last byte is not its first one. */
  method EndKey(buf: array<byte>, lp: nat, eq: nat) returns (ended: bool)
    requires lp < eq < buf.Length
    modifies buf
    ensures ended <==> KeyEnd(old(buf[..]), lp, eq - 1) != lp
    ensures buf[..] == if ended then Ended(old(buf[..]), lp, eq) else old(buf[..])
  {
    var kw := KeyEndLoop(buf, lp, eq - 1);
    ended := kw != lp;
    if ended {
      ghost var was := buf[..];
      buf[kw + 1] := NUL;
      assert buf[..] == was[kw + 1 := NUL];
    }
  }

  /** src/keyfile.c:98-113 */
  method KeyInPlace(buf: array<byte>, lp: nat, eq: nat) returns (line: Line)
    requires lp < eq < buf.Length == SIZE && eq < End(buf[..], lp) < buf.Length
    modifies buf
    ensures (line, buf[..]) == ParseKey(old(buf[..]), lp, eq)
  {
    var ended := EndKey(buf, lp, eq);
    if ended {
      line := ValueInPlace(buf, lp, eq);
    } else {
      line := Skip;
    }
  }

  /** src/keyfile.c:94-113 */
  method PairInPlace(buf: array<byte>, lp: nat) returns (line: Line)
    requires lp < buf.Length == SIZE && End(buf[..], lp) < buf.Length
    modifies buf
    ensures (line, buf[..]) == ParsePair(old(buf[..]), lp)
  {
    var kw := FindEqualsLoop(buf, lp);
    if kw == lp || buf[kw] == NUL {
      line := Skip;
    } else {
      line := KeyInPlace(buf, lp, kw);
    }
  }

  /** src/keyfile.c:76-114 */
  method TrimmedInPlace(buf: array<byte>, len: nat) returns (line: Line)
    requires buf.Length == SIZE && End(buf[..], 0) < SIZE
    modifies buf
    ensures (line, buf[..]) == ParseTrimmed(old(buf[..]), len)
  {
    var lp := SkipSpacesLoop(buf);
    if buf[lp] == NUL {
      return Skip;
    }
    assert End(buf[..], lp) <= End(buf[..], 0);
    if buf[lp] == LEFT_BRACKET {
      if lp + len >= SIZE {
        return Undefined;
      }
      if buf[lp + len] == RIGHT_BRACKET {
        line := HeaderInPlace(buf, lp, len);
      } else {
        line := Skip;
      }
    } else if !IsAlnum(buf[lp]) {
      line := Skip;
    } else {
      line := PairInPlace(buf, lp);
    }
  }

  /** src/keyfile.c:71-114 */
  method ParseInPlace(buf: array<byte>) returns (line: Line)
    requires buf.Length == SIZE && End(buf[..], 0) < SIZE
    modifies buf
    ensures (line, buf[..]) == ParseLine(old(buf[..]))
  {
    var len := StrLen(buf, 0, SIZE);
    ghost var n := len;
    if len == 0 || buf[len - 1] != NEWLINE {
      return Skip;
    }
    len := TrimEndLoop(buf, len);
    assert buf[n] == buf[..][n..][0] == old(buf[..])[n..][0] == NUL;
    assert End(buf[..], 0) <= n;
    line := TrimmedInPlace(buf, len);
  }

  /** fgets on what is left of the file. */
  method GetsInPlace(rest: seq<byte>, buf: array<byte>) returns (rest': seq<byte>)
    requires buf.Length == SIZE
    modifies buf
    ensures (buf[..], rest') == Gets(rest, old(buf[..]))
  {
    var n := ChunkLength(rest, 0);
    ghost var was := buf[..];
    forall i | 0 <= i <= n {
      buf[i] := if i < n then rest[i] else NUL;
    }
    rest' := rest[n..];
    assert buf[..] == rest[..n] + [NUL] + was[n + 1..];
  }

  /** src/keyfile.c:59-119 */
  method LoadFile(file: seq<byte>, linebuf: array<byte>) returns (outcome: Outcome)
    requires linebuf.Length == SIZE
    modifies linebuf
    ensures outcome == Load(file, old(linebuf[..]))
  {
    var store := [ROOT];
    var rest := file;
    while rest != []
      invariant store != []
      invariant LoadLines(rest, linebuf[..], store) == Load(file, old(linebuf[..]))
      decreases |rest|
    {
      ghost var n := ChunkLength(rest, 0);
      rest := GetsInPlace(rest, linebuf);
      assert linebuf[..][n] == NUL;
      var line := ParseInPlace(linebuf);
      if line.Undefined? {
        return Failed;
      }
      store := Extend(store, line);
    }
    outcome := Loaded(store);
  }

  lemma {:induction false} SaveKeysMore(keys: seq<Key>, i: nat)
    requires i < |keys|
    ensures SaveKeys(keys[..i + 1]) == SaveKeys(keys[..i]) + KeyLine(keys[i])
  {
    if i == 0 {
      assert keys[..1] == [keys[0]];
      assert SaveKeys(keys[..1]) == KeyLine(keys[0]) + SaveKeys([]);
    } else {
      SaveKeysMore(keys[1..], i - 1);
      assert keys[..i + 1][1..] == keys[1..][..i] && keys[..i][1..] == keys[1..][..i - 1];
    }
  }

  lemma {:induction false} SaveMore(store: seq<Section>, i: nat)
    requires i < |store|
    ensures Save(store[..i + 1]) == Save(store[..i]) + (HeaderLine(store[i].id) + SaveKeys(store[i].keys))
  {
    if i == 0 {
      assert store[..1] == [store[0]];
      assert Save(store[..1]) == HeaderLine(store[0].id) + SaveKeys(store[0].keys) + Save([]);
    } else {
      SaveMore(store[1..], i - 1);
      assert store[..i + 1][1..] == store[1..][..i] && store[..i][1..] == store[1..][..i - 1];
    }
  }

  /** src/keyfile.c:121-137, the bytes written. */
  method SaveFile(store: seq<Section>) returns (file: seq<byte>)
    ensures file == Save(store)
  {
    file := [];
    for i := 0 to |store|
      invariant file == Save(store[..i])
    {
      var section := store[i];
      var printed := HeaderLine(section.id);
      for j := 0 to |section.keys|
        invariant printed == HeaderLine(section.id) + SaveKeys(section.keys[..j])
      {
        SaveKeysMore(section.keys, j);
        printed := printed + KeyLine(section.keys[j]);
      }
      assert section.keys[..|section.keys|] == section.keys;
      SaveMore(store, i);
      file := file + printed;
    }
    assert store[..|store|] == store;
  }

  // Lookups

  /** strcasecmp(a, b) == 0 */
  predicate SameFolded(a: Text, b: Text) {
    |a| == |b| && forall i :: 0 <= i < |a| ==> ToLower(a[i]) == ToLower(b[i])
  }

  /** Names match if and only if they are stored alike: the name is looked up as it would be stored. */
  lemma MatchesAsStored(a: Text, b: Text)
    requires |a| <= 32 && |b| <= 32
    ensures SameFolded(a, b) <==> Upper(a) == Upper(b)
  {
    if |a| == |b| {
      forall i | 0 <= i < |a|
        ensures ToLower(a[i]) == ToLower(b[i]) <==> Upper(a)[i] == Upper(b)[i]
      {
        Folding(a[i]);
        Folding(b[i]);
      }
      if Upper(a) != Upper(b) {
        var i :| 0 <= i < |a| && Upper(a)[i] != Upper(b)[i];
      }
    }
  }

  /** find_keysection: the first section with the name, or the number of sections. */
  function SectionAt(store: seq<Section>, id: Text): (k: nat)
    ensures k <= |store|
    ensures k < |store| ==> SameFolded(id, store[k].id)
    ensures forall j :: 0 <= j < k ==> !SameFolded(id, store[j].id)
  {
    if store == [] || SameFolded(id, store[0].id) then 0
    else
      var k := SectionAt(store[1..], id);
      assert forall j :: 1 <= j < k + 1 ==> store[j] == store[1..][j - 1];
      k + 1
  }

  datatype Found = Missing | Value(text: Text)

  /** get_keyvalue: the value of the first key with the name. */
  function ValueOf(keys: seq<Key>, id: Text): (v: Found)
    ensures v.Missing? <==> forall j :: 0 <= j < |keys| ==> keys[j].id != id
    ensures v.Value? ==>
      exists j :: 0 <= j < |keys| && keys[j] == Key(id, v.text) && forall i :: 0 <= i < j ==> keys[i].id != id
  {
    if keys == [] then Missing
    else if keys[0].id == id then Value(keys[0].value)
    else
      var v := ValueOf(keys[1..], id);
      assert forall j :: 1 <= j < |keys| ==> keys[j] == keys[1..][j - 1];
      assert v.Value? ==>
        exists j :: 0 <= j < |keys| && keys[j] == Key(id, v.text) && forall i :: 0 <= i < j ==> keys[i].id != id by {
        if v.Value? {
          var j :| 0 <= j < |keys| - 1 && keys[1..][j] == Key(id, v.text)
                   && forall i :: 0 <= i < j ==> keys[1..][i].id != id;
          assert keys[j + 1] == Key(id, v.text);
          assert forall i :: 0 <= i < j + 1 ==> keys[i].id != id;
        }
      }
      v
  }

  /** src/keyfile.c:52-57 */
  method FindSection(root: seq<Section>, id: Text) returns (k: nat)
    ensures k == SectionAt(root, id)
  {
    k := 0;
    while k < |root| && !SameFolded(id, root[k].id)
      invariant k <= |root| && forall j :: 0 <= j < k ==> !SameFolded(id, root[j].id)
    {
      k := k + 1;
    }
  }

  /** src/keyfile.c:17-25 */
  method GetValue(keys: seq<Key>, id: Text) returns (v: Found)
    ensures v == ValueOf(keys, id)
  {
    var k := 0;
    while k < |keys|
      invariant k <= |keys| && ValueOf(keys, id) == ValueOf(keys[k..], id)
    {
      if keys[k].id == id {
        return Value(keys[k].value);
      }
      assert keys[k..][1..] == keys[k + 1..];
      k := k + 1;
    }
    v := Missing;
  }

  predicate NoRepeats(keys: seq<Key>) {
    forall i, j :: 0 <= i < j < |keys| ==> keys[i].id != keys[j].id
  }

  /** Every lookup, by any section name and any key, answers the same after a save and a load of a store
      that has no key twice in a section. */
  lemma LookupsSurvive(store: seq<Section>, buf: seq<byte>, section: Text, key: Text)
    requires StoreOk(store) && |buf| == SIZE
    requires forall i :: 0 <= i < |store| ==> NoRepeats(store[i].keys)
    ensures var loaded := Load(Save(store), buf);
      && loaded.Loaded?
      && |loaded.store| == |store|
      && SectionAt(loaded.store, section) == SectionAt(store, section)
      && (var k := SectionAt(store, section);
          k < |store| ==> ValueOf(loaded.store[k].keys, key) == ValueOf(store[k].keys, key))
  {
    LoadAfterSave(store, buf);
    var k := SectionAt(store, section);
    if k < |store| {
      ReversedSameValue(store[k].keys, key);
    }
  }

  lemma ReversedSameValue(keys: seq<Key>, id: Text)
    requires NoRepeats(keys)
    ensures ValueOf(ReverseKeys(keys), id) == ValueOf(keys, id)
  {
    var back := ReverseKeys(keys);
    if ValueOf(keys, id).Value? {
      var j :| 0 <= j < |keys| && keys[j] == Key(id, ValueOf(keys, id).text);
      assert back[|keys| - 1 - j] == keys[j];
    }
    if ValueOf(back, id).Value? {
      var j :| 0 <= j < |keys| && back[j] == Key(id, ValueOf(back, id).text);
      assert back[j] == keys[|keys| - 1 - j];
    }
  }
}

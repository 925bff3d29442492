/** Reading the Red Bank's maps out of raw contract state, one work item per account (collector.go). */
module Collector {
  import opened Prelude

  type Byte = b: int | 0 <= b < 256
  type Bytes = seq<Byte>

  /** "debts" and "collaterals" in ASCII. */
  const DEBTS: Bytes := [100, 101, 98, 116, 115]
  const COLLATERALS: Bytes := [99, 111, 108, 108, 97, 116, 101, 114, 97, 108, 115]

  const SHORTEST_MAP_KEY := 50

  // ----- Length prefixes ------------------------------------------------------------------------

  function HexDigit(n: int): char
    requires 0 <= n < 16
  {
    "0123456789ABCDEF"[n]
  }

  function HexString(bytes: Bytes): string {
    if bytes == [] then ""
    else
      var k := |bytes| - 1;
      HexString(bytes[..k]) + [HexDigit(bytes[k] / 16), HexDigit(bytes[k] % 16)]
  }

  function DigitValue(c: char): Option<nat> {
    if '0' <= c <= '9' then Some(c as int - '0' as int)
    else if 'A' <= c <= 'F' then Some(c as int - 'A' as int + 10)
    else if 'a' <= c <= 'f' then Some(c as int - 'a' as int + 10)
    else None
  }

  function HexValue(s: string): Option<nat> {
    if s == "" then Some(0)
    else
      var front, last := HexValue(s[..|s| - 1]), DigitValue(s[|s| - 1]);
      if front.None? || last.None? then None else Some(16 * front.value + last.value)
  }

  /** ParseInt(s, 16, 64) on an unsigned numeral. */
  function ParseHex(s: string): Option<nat> {
    var v := HexValue(s);
    if s == "" || v.None? || v.value > 0x7FFF_FFFF_FFFF_FFFF then None else v
  }

  function BigEndian(bytes: Bytes): nat {
    if bytes == [] then 0 else 256 * BigEndian(bytes[..|bytes| - 1]) + bytes[|bytes| - 1]
  }

  lemma {:induction false} DigitsRead(n: int)
    requires 0 <= n < 16
    ensures DigitValue(HexDigit(n)) == Some(n)
  {
  }

  /** Printing bytes in hexadecimal and reading them back gives their big-endian value. */
  lemma {:induction false} HexReadsBigEndian(bytes: Bytes)
    ensures HexValue(HexString(bytes)) == Some(BigEndian(bytes))
  {
    if bytes != [] {
      hide HexValue, HexDigit;
      var k := |bytes| - 1;
      HexReadsBigEndian(bytes[..k]);
      TwoDigitsRead(HexString(bytes[..k]), bytes[k]);
    } else {
      assert HexValue("") == Some(0);
    }
  }

  lemma {:induction false} TwoDigitsRead(front: string, byte: Byte)
    ensures var before := HexValue(front);
            before.Some? ==>
              HexValue(front + [HexDigit(byte / 16), HexDigit(byte % 16)]) == Some(256 * before.value + byte)
  {
    DigitSnoc(front, byte / 16);
    DigitSnoc(front + [HexDigit(byte / 16)], byte % 16);
    assert front + [HexDigit(byte / 16)] + [HexDigit(byte % 16)] == front + [HexDigit(byte / 16), HexDigit(byte % 16)];
  }

  lemma {:induction false} DigitSnoc(front: string, n: int)
    requires 0 <= n < 16
    ensures var before := HexValue(front);
            before.Some? ==> HexValue(front + [HexDigit(n)]) == Some(16 * before.value + n)
  {
    DigitsRead(n);
    assert (front + [HexDigit(n)])[..|front|] == front;
  }

  lemma {:induction false} TwoBytesRead(bytes: Bytes)
    requires |bytes| == 2
    ensures ParseHex(HexString(bytes)) == Some(256 * (bytes[0] as int) + bytes[1])
  {
    HexReadsBigEndian(bytes);
    assert bytes[..1][..0] == [] && BigEndian(bytes[..1]) == bytes[0];
    assert HexString(bytes) != "";
  }

  // ----- Keys -----------------------------------------------------------------------------------

  datatype Section = Unreadable | Beyond | Section(content: Bytes, rest: Bytes)

  /** A two-byte length, that many bytes, and what follows; slicing past the end is Beyond. */
  function ReadSection(key: Bytes): Section {
    if |key| < 2 then Beyond
    else
      match ParseHex(HexString(key[..2]))
      case None => Unreadable
      case Some(length) => if 2 + length > |key| then Beyond else Section(key[2..][..length], key[2..][length..])
  }

  /** How cw-storage-plus writes one component of a map key. */
  function Framed(content: Bytes): Bytes
    requires |content| < 0x1_0000
  {
    [|content| / 256, |content| % 256] + content
  }

  function EncodeKey(name: Bytes, address: Bytes, denom: Bytes): Bytes
    requires |name| < 0x1_0000 && |address| < 0x1_0000
  {
    Framed(name) + (Framed(address) + denom)
  }

  predicate OccursAt(whole: Bytes, part: Bytes, i: int) {
    0 <= i <= |whole| - |part| && whole[i..i + |part|] == part
  }

  predicate Contains(whole: Bytes, part: Bytes) {
    exists i :: 0 <= i <= |whole| && OccursAt(whole, part, i)
  }

  /** One byte string contains another exactly when the other stands somewhere between two parts of it. */
  lemma {:induction false} ContainsIff(whole: Bytes, part: Bytes)
    ensures Contains(whole, part) <==> exists before, after :: whole == before + part + after
  {
    if Contains(whole, part) {
      var i :| 0 <= i <= |whole| && OccursAt(whole, part, i);
      assert whole == whole[..i] + part + whole[i + |part|..];
    }
    if before, after :| whole == before + part + after {
      assert OccursAt(whole, part, |before|);
    }
  }

  /** `key` is `content` behind its length, followed by `rest`. */
  predicate Frames(key: Bytes, content: Bytes, rest: Bytes) {
    |content| < 0x1_0000 && key == Framed(content) + rest
  }

  datatype KeyRead = Skipped | OutOfBounds | Entry(name: Bytes, address: Bytes, denom: Bytes)

  function ParseKey(key: Bytes, wanted: Bytes): KeyRead {
    if |key| < SHORTEST_MAP_KEY then Skipped
    else
      match ReadSection(key)
      case Unreadable => Skipped
      case Beyond => OutOfBounds
      case Section(name, rest) =>
        if !Contains(wanted, name) then Skipped
        else
          match ReadSection(rest)
          case Unreadable => Skipped
          case Beyond => OutOfBounds
          case Section(address, denom) => Entry(name, address, denom)
  }

  lemma {:induction false} FramesRead(key: Bytes)
    requires |key| >= 2
    ensures var length := 256 * (key[0] as int) + key[1];
            && (2 + length <= |key| ==> ReadSection(key) == Section(key[2..][..length], key[2..][length..]))
            && (2 + length > |key| ==> ReadSection(key) == Beyond)
            && forall content, rest :: Frames(key, content, rest)
                 <==> 2 + length <= |key| && content == key[2..][..length] && rest == key[2..][length..]
  {
    hide ParseHex, HexString;
    TwoBytesRead(key[..2]);
    var length := 256 * (key[0] as int) + key[1];
    forall content, rest
      ensures Frames(key, content, rest)
              <==> 2 + length <= |key| && content == key[2..][..length] && rest == key[2..][length..]
    {
      if Frames(key, content, rest) {
        assert key[0] == |content| / 256 && key[1] == |content| % 256;
        assert key[2..] == content + rest;
      }
      if 2 + length <= |key| && content == key[2..][..length] && rest == key[2..][length..] {
        assert length / 256 == key[0] && length % 256 == key[1];
        assert key[2..] == content + rest;
        assert key == [key[0], key[1]] + key[2..];
      }
    }
  }

  lemma {:induction false} SectionIsFramed(key: Bytes, content: Bytes, rest: Bytes)
    ensures ReadSection(key) == Section(content, rest) <==> Frames(key, content, rest)
    ensures ReadSection(key) != Unreadable
  {
    if |key| >= 2 {
      hide ReadSection, Frames;
      FramesRead(key);
    }
  }

  /** The parser yields an entry exactly for the encodings, 50 bytes or longer, of a name that is wanted. */
  lemma {:induction false} ParseInvertsEncode(key: Bytes, wanted: Bytes, name: Bytes, address: Bytes, denom: Bytes)
    ensures ParseKey(key, wanted) == Entry(name, address, denom)
            <==> && |name| < 0x1_0000 && |address| < 0x1_0000 && key == EncodeKey(name, address, denom)
                 && |key| >= 50 && Contains(wanted, name)
  {
    hide ReadSection, Framed, Contains;
    var outer := ReadSection(key);
    if outer.Section? {
      SectionIsFramed(key, outer.content, outer.rest);
      SectionIsFramed(outer.rest, address, denom);
    }
    if |name| < 0x1_0000 && |address| < 0x1_0000 {
      SectionIsFramed(key, name, Framed(address) + denom);
      SectionIsFramed(Framed(address) + denom, address, denom);
    }
  }

  /** It runs out of bounds exactly when a long key is not framed, or names a wanted map but frames no address. */
  lemma {:induction false} ParsePanicsIff(key: Bytes, wanted: Bytes)
    ensures ParseKey(key, wanted) == OutOfBounds
            <==> && |key| >= 50
                 && forall name, rest :: Frames(key, name, rest)
                      ==> Contains(wanted, name) && forall address, denom :: !Frames(rest, address, denom)
  {
    hide ReadSection, Frames, Contains;
    forall name, rest
      ensures ReadSection(key) == Section(name, rest) <==> Frames(key, name, rest)
    {
      SectionIsFramed(key, name, rest);
    }
    SectionIsFramed(key, [], []);
    var outer := ReadSection(key);
    if outer.Section? {
      SectionIsFramed(outer.rest, [], []);
      forall address, denom
        ensures ReadSection(outer.rest) == Section(address, denom) <==> Frames(outer.rest, address, denom)
      {
        SectionIsFramed(outer.rest, address, denom);
      }
    }
  }

  /** Fifty bytes that announce a name of 65535: slicing runs out of bounds, whatever maps are wanted. */
  lemma {:induction false} UnframedKeyPanics(wanted: Bytes)
    ensures ParseKey([255, 255] + seq(48, _ => 0), wanted) == OutOfBounds
  {
    var key: Bytes := [255, 255] + seq(48, _ => 0);
    hide ReadSection;
    FramesRead(key);
  }

  // ----- Grouping by account --------------------------------------------------------------------

  datatype Model = Model(key: Bytes, value: Bytes)

  datatype Record = Record(name: Bytes, address: Bytes, denom: Bytes, amount: string)

  datatype Asset = Asset(token: Bytes, amount: string)

  datatype Endpoints = Endpoints(hive: string, lcd: string, rpc: string)

  datatype HealthCheckWorkItem = HealthCheckWorkItem(
    address: Bytes, debts: seq<Asset>, collateral: seq<Asset>, endpoints: Endpoints)

  /** What a call reads: the map names wanted, and the amount in a JSON value if it decodes. */
  datatype Reader = Reader(wanted: Bytes, decode: Bytes -> Option<string>) {
    function Read(m: Model): Option<Record> {
      match ParseKey(m.key, wanted)
      case Entry(name, address, denom) =>
        (match decode(m.value)
         case None => None
         case Some(amount) => Some(Record(name, address, denom, amount)))
      case _ => None
    }

    /** The records of a page of state, in order. */
    function Accepted(models: seq<Model>): seq<Record> {
      if models == [] then []
      else
        var front, last := Accepted(models[..|models| - 1]), Read(models[|models| - 1]);
        if last.Some? then front + [last.value] else front
    }

    predicate Panics(models: seq<Model>) {
      exists i :: 0 <= i < |models| && ParseKey(models[i].key, wanted) == OutOfBounds
    }

    /** State written from records, with values that decode to their amounts, reads back as those records. */
    lemma {:induction false} StoredIsAccepted(records: seq<Record>, models: seq<Model>)
      requires |models| == |records|
      requires forall i :: 0 <= i < |records| ==> Stores(models[i], records[i])
      ensures Accepted(models) == records && !Panics(models)
    {
      hide Stores, ParseKey;
      forall i | 0 <= i < |models|
        ensures ParseKey(models[i].key, wanted) != OutOfBounds && Read(models[i]) == Some(records[i])
      {
        StoredIsRead(models[i], records[i]);
      }
      if records != [] {
        var k := |records| - 1;
        StoredIsAccepted(records[..k], models[..k]);
        assert records == records[..k] + [records[k]];
      }
    }

    predicate Stores(m: Model, r: Record) {
      && |r.name| < 0x1_0000 && |r.address| < 0x1_0000 && m.key == EncodeKey(r.name, r.address, r.denom)
      && |m.key| >= 50 && Contains(wanted, r.name) && decode(m.value) == Some(r.amount)
    }

    lemma {:induction false} StoredIsRead(m: Model, r: Record)
      requires Stores(m, r)
      ensures ParseKey(m.key, wanted) == Entry(r.name, r.address, r.denom) && Read(m) == Some(r)
    {
      ParseInvertsEncode(m.key, wanted, r.name, r.address, r.denom);
    }
  }

  /** The assets that map `name` holds for `address`, in the order scanned. */
  function AssetsIn(records: seq<Record>, address: Bytes, name: Bytes): seq<Asset> {
    if records == [] then []
    else
      var front, last := AssetsIn(records[..|records| - 1], address, name), records[|records| - 1];
      if last.address == address && last.name == name then front + [Asset(last.denom, last.amount)] else front
  }

  function ItemFor(records: seq<Record>, address: Bytes, endpoints: Endpoints): (item: HealthCheckWorkItem)
    ensures item.address == address
  {
    HealthCheckWorkItem(address, AssetsIn(records, address, DEBTS), AssetsIn(records, address, COLLATERALS), endpoints)
  }

  ghost predicate Mentions(records: seq<Record>, address: Bytes) {
    exists i :: 0 <= i < |records| && records[i].address == address
  }

  ghost predicate Grouped(accounts: map<Bytes, HealthCheckWorkItem>, records: seq<Record>, endpoints: Endpoints) {
    && (forall a :: a in accounts <==> Mentions(records, a))
    && (forall a :: a in accounts ==> accounts[a] == ItemFor(records, a, endpoints))
  }

  lemma {:induction false} MentionsSnoc(records: seq<Record>, r: Record, address: Bytes)
    ensures Mentions(records + [r], address) <==> Mentions(records, address) || r.address == address
  {
    if Mentions(records, address) {
      var i :| 0 <= i < |records| && records[i].address == address;
      assert (records + [r])[i].address == address;
    }
    assert (records + [r])[|records|] == r;
  }

  lemma {:induction false} AssetsSnoc(records: seq<Record>, r: Record, address: Bytes, name: Bytes)
    ensures AssetsIn(records + [r], address, name)
            == AssetsIn(records, address, name)
               + (if r.address == address && r.name == name then [Asset(r.denom, r.amount)] else [])
  {
    assert (records + [r])[..|records|] == records;
  }

  lemma {:induction false} UnmentionedHasNoAssets(records: seq<Record>, address: Bytes, name: Bytes)
    ensures !Mentions(records, address) ==> AssetsIn(records, address, name) == []
  {
    if records != [] {
      var front, last := records[..|records| - 1], records[|records| - 1];
      UnmentionedHasNoAssets(front, address, name);
      MentionsSnoc(front, last, address);
      assert front + [last] == records;
    }
  }

  lemma {:induction false} GroupedGrows(
      accounts: map<Bytes, HealthCheckWorkItem>, records: seq<Record>, r: Record, endpoints: Endpoints)
    requires Grouped(accounts, records, endpoints)
    ensures Grouped(accounts[r.address := ItemFor(records + [r], r.address, endpoints)], records + [r], endpoints)
    ensures r.address !in accounts
            ==> ItemFor(records, r.address, endpoints) == HealthCheckWorkItem(r.address, [], [], endpoints)
  {
    hide AssetsIn, Mentions;
    UnmentionedHasNoAssets(records, r.address, DEBTS);
    UnmentionedHasNoAssets(records, r.address, COLLATERALS);
    forall a
      ensures Mentions(records + [r], a) <==> Mentions(records, a) || r.address == a
      ensures a != r.address ==> ItemFor(records + [r], a, endpoints) == ItemFor(records, a, endpoints)
    {
      MentionsSnoc(records, r, a);
      AssetsSnoc(records, r, a, DEBTS);
      AssetsSnoc(records, r, a, COLLATERALS);
    }
  }

  /** One item for each address mentioned, holding exactly that address's assets. */
  ghost predicate OneItemEach(items: seq<HealthCheckWorkItem>, records: seq<Record>, endpoints: Endpoints) {
    && (forall i, j :: 0 <= i < j < |items| ==> items[i].address != items[j].address)
    && (forall i :: 0 <= i < |items|
          ==> Mentions(records, items[i].address) && items[i] == ItemFor(records, items[i].address, endpoints))
    && (forall a :: Mentions(records, a) ==> exists i :: 0 <= i < |items| && items[i].address == a)
  }

  lemma {:induction false} ScanNext(reader: Reader, models: seq<Model>, i: nat)
    requires i < |models|
    ensures reader.Panics(models[..i + 1])
            <==> reader.Panics(models[..i]) || ParseKey(models[i].key, reader.wanted) == OutOfBounds
    ensures var next := reader.Read(models[i]);
            reader.Accepted(models[..i + 1])
            == if next.Some? then reader.Accepted(models[..i]) + [next.value] else reader.Accepted(models[..i])
    ensures reader.Panics(models[..i + 1]) ==> reader.Panics(models)
  {
    hide ParseKey;
    assert models[..i + 1][..i] == models[..i] && models[..i + 1][i] == models[i];
    if reader.Panics(models[..i]) {
      var k :| 0 <= k < |models[..i]| && ParseKey(models[..i][k].key, reader.wanted) == OutOfBounds;
      assert models[..i + 1][k] == models[..i][k];
    }
    if reader.Panics(models[..i + 1]) {
      var k :| 0 <= k < |models[..i + 1]| && ParseKey(models[..i + 1][k].key, reader.wanted) == OutOfBounds;
      assert models[k] == models[..i + 1][k];
      assert k < i ==> models[..i][k] == models[k];
    }
  }

  datatype Fetched = Crashed | Fetched(results: seq<string>, totalScanned: nat)

  /** One result for each item, in order; an item that cannot be encoded leaves an empty one behind. */
  ghost predicate EncodesEach(
      results: seq<string>, items: seq<HealthCheckWorkItem>, encode: HealthCheckWorkItem -> Option<string>)
  {
    && |results| == |items|
    && forall i :: 0 <= i < |items|
         ==> match encode(items[i]) case Some(text) => results[i] == text case None => results[i] == ""
  }

  method FetchContractItems(
      reader: Reader, models: seq<Model>, endpoints: Endpoints, encode: HealthCheckWorkItem -> Option<string>)
    returns (r: Fetched)
    ensures r == Crashed <==> reader.Panics(models)
    ensures r.Fetched? ==> r.totalScanned == |models|
    ensures r.Fetched? ==> exists items :: OneItemEach(items, reader.Accepted(models), endpoints)
                                           && EncodesEach(r.results, items, encode)
  {
    hide Reader.Accepted, Reader.Panics, ParseHex, HexString, Contains, Grouped, OneItemEach;
    var accounts: map<Bytes, HealthCheckWorkItem> := map[];
    var totalScanned := 0;
    NothingScanned(reader, models, endpoints);
    for i := 0 to |models|
      invariant !reader.Panics(models[..i]) && totalScanned == i
      invariant Grouped(accounts, reader.Accepted(models[..i]), endpoints)
    {
      ScanNext(reader, models, i);
      totalScanned := totalScanned + 1;
      var hexKey := models[i].key;
      if |hexKey| < SHORTEST_MAP_KEY { continue; }
      var length := ParseHex(HexString(hexKey[..2]));
      if length.None? { continue; }
      hexKey := hexKey[2..];
      if length.value > |hexKey| { return Crashed; }
      var mapName := hexKey[..length.value];
      hexKey := hexKey[length.value..];
      if !Contains(reader.wanted, mapName) { continue; }
      if |hexKey| < 2 { return Crashed; }
      length := ParseHex(HexString(hexKey[..2]));
      if length.None? { continue; }
      hexKey := hexKey[2..];
      if length.value > |hexKey| { return Crashed; }
      var address := hexKey[..length.value];
      var denom := hexKey[length.value..];
      assert ParseKey(models[i].key, reader.wanted) == Entry(mapName, address, denom);
      var value := reader.decode(models[i].value);
      if value.None? { continue; }
      var record := Record(mapName, address, denom, value.value);
      accounts := Track(accounts, record, endpoints, reader.Accepted(models[..i]));
    }
    assert models[..|models|] == models;
    var items := ItemsOf(accounts, reader.Accepted(models), endpoints);
    var results := seq(|items|, i requires 0 <= i < |items| =>
      if encode(items[i]).Some? then encode(items[i]).value else "");
    assert EncodesEach(results, items, encode);
    r := Fetched(results, totalScanned);
  }

  /** Adds one decoded record to its account, which is created when first seen. */
  method Track(accounts: map<Bytes, HealthCheckWorkItem>, r: Record, endpoints: Endpoints, ghost records: seq<Record>)
    returns (tracked: map<Bytes, HealthCheckWorkItem>)
    requires Grouped(accounts, records, endpoints)
    ensures Grouped(tracked, records + [r], endpoints)
  {
    hide Grouped;
    GroupedGrows(accounts, records, r, endpoints);
    NextItem(accounts, records, r, endpoints);
    var asset := Asset(r.denom, r.amount);
    tracked := accounts;
    if r.address !in tracked {
      tracked := tracked[r.address := HealthCheckWorkItem(r.address, [], [], endpoints)];
    }
    var current := tracked[r.address];
    if r.name == DEBTS {
      current := current.(debts := current.debts + [asset]);
    }
    if r.name == COLLATERALS {
      current := current.(collateral := current.collateral + [asset]);
    }
    tracked := tracked[r.address := current];
    assert tracked == accounts[r.address := ItemFor(records + [r], r.address, endpoints)];
  }

  /** Walks the map in whatever order it yields its keys. */
  method ItemsOf(accounts: map<Bytes, HealthCheckWorkItem>, ghost records: seq<Record>, ghost endpoints: Endpoints)
    returns (results: seq<HealthCheckWorkItem>)
    requires Grouped(accounts, records, endpoints)
    ensures OneItemEach(results, records, endpoints)
  {
    hide Mentions, ItemFor;
    results := [];
    var left := accounts.Keys;
    while left != {}
      invariant forall a :: a in left ==> a in accounts
      invariant forall i :: 0 <= i < |results| ==> results[i].address in accounts && results[i].address !in left
                                                    && results[i] == accounts[results[i].address]
      invariant forall i, j :: 0 <= i < j < |results| ==> results[i].address != results[j].address
      invariant forall a :: a in accounts && a !in left ==> exists i :: 0 <= i < |results| && results[i].address == a
      decreases left
    {
      var address :| address in left;
      ghost var before := results;
      results := results + [accounts[address]];
      left := left - {address};
      assert results[|before|].address == address;
      forall a | a in accounts && a !in left
        ensures exists i :: 0 <= i < |results| && results[i].address == a
      {
        if a != address {
          var i :| 0 <= i < |before| && before[i].address == a;
          assert results[i].address == a;
        }
      }
    }
  }

  lemma {:induction false} NothingScanned(reader: Reader, models: seq<Model>, endpoints: Endpoints)
    ensures !reader.Panics(models[..0]) && Grouped(map[], reader.Accepted(models[..0]), endpoints)
  {
  }

  lemma {:induction false} NextItem(
      accounts: map<Bytes, HealthCheckWorkItem>, records: seq<Record>, r: Record, endpoints: Endpoints)
    requires Grouped(accounts, records, endpoints)
    ensures r.address in accounts ==> accounts[r.address] == ItemFor(records, r.address, endpoints)
    ensures var item, asset := ItemFor(records, r.address, endpoints), Asset(r.denom, r.amount);
            && ItemFor(records + [r], r.address, endpoints).debts
               == item.debts + (if r.name == DEBTS then [asset] else [])
            && ItemFor(records + [r], r.address, endpoints).collateral
               == item.collateral + (if r.name == COLLATERALS then [asset] else [])
  {
    AssetsSnoc(records, r, r.address, DEBTS);
    AssetsSnoc(records, r, r.address, COLLATERALS);
  }

  // ----- In scan order --------------------------------------------------------------------------

  /** The map names as they are spelt. */
  lemma {:induction false} MapNames()
    ensures DEBTS == seq(|"debts"|, i requires 0 <= i < |"debts"| => "debts"[i] as int)
    ensures COLLATERALS == seq(|"collaterals"|, i requires 0 <= i < |"collaterals"| => "collaterals"[i] as int)
  {
  }

  /** The i-th record accepted is read from the model whose key parses and value decodes with `i` such before it. */
  lemma {:induction false} AcceptedInOrder(reader: Reader, models: seq<Model>, i: nat) returns (k: nat)
    requires i < |reader.Accepted(models)|
    ensures k < |models|
    ensures Kept(models[..k], (m: Model) => ParseKey(m.key, reader.wanted).Entry? && reader.decode(m.value).Some?) == i
    ensures var r, m := reader.Accepted(models)[i], models[k];
            && ParseKey(m.key, reader.wanted) == Entry(r.name, r.address, r.denom)
            && reader.decode(m.value) == Some(r.amount)
  {
    hide ParseKey;
    var front := models[..|models| - 1];
    AcceptedLength(reader, front);
    if i < |reader.Accepted(front)| {
      k := AcceptedInOrder(reader, front, i);
      assert models[..k] == front[..k];
    } else {
      k := |models| - 1;
    }
  }

  lemma {:induction false} AcceptedLength(reader: Reader, models: seq<Model>)
    ensures |reader.Accepted(models)|
            == Kept(models, (m: Model) => ParseKey(m.key, reader.wanted).Entry? && reader.decode(m.value).Some?)
  {
    hide ParseKey;
    if models != [] {
      AcceptedLength(reader, models[..|models| - 1]);
    }
  }

  /** The item of an address holds each of its debt records, at the place that earlier such records leave it. */
  lemma {:induction false} DebtsInOrder(
      items: seq<HealthCheckWorkItem>, records: seq<Record>, endpoints: Endpoints, k: nat)
    returns (i: nat)
    requires OneItemEach(items, records, endpoints) && k < |records| && records[k].name == DEBTS
    ensures i < |items| && items[i].address == records[k].address && items[i].endpoints == endpoints
    ensures var place := Kept(records[..k], (r: Record) => r.address == records[k].address && r.name == DEBTS);
            place < |items[i].debts| && items[i].debts[place] == Asset(records[k].denom, records[k].amount)
  {
    i := ItemOf(items, records, endpoints, k);
    AssetAt(records, records[k].address, DEBTS, k);
  }

  lemma {:induction false} CollateralInOrder(
      items: seq<HealthCheckWorkItem>, records: seq<Record>, endpoints: Endpoints, k: nat)
    returns (i: nat)
    requires OneItemEach(items, records, endpoints) && k < |records| && records[k].name == COLLATERALS
    ensures i < |items| && items[i].address == records[k].address && items[i].endpoints == endpoints
    ensures var place := Kept(records[..k], (r: Record) => r.address == records[k].address && r.name == COLLATERALS);
            place < |items[i].collateral| && items[i].collateral[place] == Asset(records[k].denom, records[k].amount)
  {
    i := ItemOf(items, records, endpoints, k);
    AssetAt(records, records[k].address, COLLATERALS, k);
  }

  lemma {:induction false} ItemOf(items: seq<HealthCheckWorkItem>, records: seq<Record>, endpoints: Endpoints, k: nat)
    returns (i: nat)
    requires OneItemEach(items, records, endpoints) && k < |records|
    ensures i < |items| && items[i] == ItemFor(records, records[k].address, endpoints)
  {
    hide ItemFor;
    assert Mentions(records, records[k].address);
    i :| i < |items| && items[i].address == records[k].address;
  }

  lemma {:induction false} AssetAt(records: seq<Record>, address: Bytes, name: Bytes, k: nat)
    requires k < |records| && records[k].address == address && records[k].name == name
    ensures var place := Kept(records[..k], (r: Record) => r.address == address && r.name == name);
            && place < |AssetsIn(records, address, name)|
            && AssetsIn(records, address, name)[place] == Asset(records[k].denom, records[k].amount)
  {
    var front := records[..|records| - 1];
    AssetsLength(front, address, name);
    if k < |front| {
      AssetAt(front, address, name, k);
      assert records[..k] == front[..k];
    }
  }

  lemma {:induction false} AssetsLength(records: seq<Record>, address: Bytes, name: Bytes)
    ensures |AssetsIn(records, address, name)|
            == Kept(records, (r: Record) => r.address == address && r.name == name)
  {
    if records != [] {
      AssetsLength(records[..|records| - 1], address, name);
    }
  }

  // ----- Nothing lost, nothing counted twice ----------------------------------------------------

  function AssetCount(items: seq<HealthCheckWorkItem>): nat {
    if items == [] then 0
    else
      var k := |items| - 1;
      AssetCount(items[..k]) + |items[k].debts| + |items[k].collateral|
  }

  function PositionRecords(records: seq<Record>): nat {
    if records == [] then 0
    else
      var k := |records| - 1;
      PositionRecords(records[..k]) + if records[k].name == DEBTS || records[k].name == COLLATERALS then 1 else 0
  }

  function ItemsFor(addresses: seq<Bytes>, records: seq<Record>, endpoints: Endpoints): seq<HealthCheckWorkItem> {
    seq(|addresses|, i requires 0 <= i < |addresses| => ItemFor(records, addresses[i], endpoints))
  }

  lemma {:induction false} OneMoreRecord(addresses: seq<Bytes>, records: seq<Record>, r: Record, endpoints: Endpoints)
    requires NoDuplicates(addresses)
    ensures AssetCount(ItemsFor(addresses, records + [r], endpoints))
            == AssetCount(ItemsFor(addresses, records, endpoints))
               + if r.address in addresses && (r.name == DEBTS || r.name == COLLATERALS) then 1 else 0
  {
    if addresses != [] {
      var k := |addresses| - 1;
      var front, last := addresses[..k], addresses[k];
      OneMoreRecord(front, records, r, endpoints);
      AssetsSnoc(records, r, last, DEBTS);
      AssetsSnoc(records, r, last, COLLATERALS);
      assert ItemsFor(addresses, records, endpoints)[..k] == ItemsFor(front, records, endpoints);
      assert ItemsFor(addresses, records + [r], endpoints)[..k] == ItemsFor(front, records + [r], endpoints);
      assert addresses == front + [last];
    }
  }

  lemma {:induction false} EveryRecordIsHeld(addresses: seq<Bytes>, records: seq<Record>, endpoints: Endpoints)
    requires NoDuplicates(addresses) && forall i :: 0 <= i < |records| ==> records[i].address in addresses
    ensures AssetCount(ItemsFor(addresses, records, endpoints)) == PositionRecords(records)
  {
    if records == [] {
      NoRecords(addresses, endpoints);
    } else {
      var k := |records| - 1;
      EveryRecordIsHeld(addresses, records[..k], endpoints);
      OneMoreRecord(addresses, records[..k], records[k], endpoints);
      assert records == records[..k] + [records[k]];
    }
  }

  lemma {:induction false} NoRecords(addresses: seq<Bytes>, endpoints: Endpoints)
    ensures AssetCount(ItemsFor(addresses, [], endpoints)) == 0
  {
    if addresses != [] {
      var k := |addresses| - 1;
      NoRecords(addresses[..k], endpoints);
      assert ItemsFor(addresses, [], endpoints)[..k] == ItemsFor(addresses[..k], [], endpoints);
    }
  }

  /** The items hold one asset for each debt and collateral record scanned, in whatever order they come out. */
  lemma {:induction false} AssetsMatchRecords(
      items: seq<HealthCheckWorkItem>, records: seq<Record>, endpoints: Endpoints)
    requires OneItemEach(items, records, endpoints)
    ensures AssetCount(items) == PositionRecords(records)
  {
    hide ItemFor;
    var addresses := seq(|items|, i requires 0 <= i < |items| => items[i].address);
    forall i | 0 <= i < |records|
      ensures records[i].address in addresses
    {
      assert Mentions(records, records[i].address);
      var j :| 0 <= j < |items| && items[j].address == records[i].address;
      assert addresses[j] == records[i].address;
    }
    EveryRecordIsHeld(addresses, records, endpoints);
    assert items == ItemsFor(addresses, records, endpoints);
  }
}

/**
 * The download history of app/history.py: records, their dict form, and the
 * JSON journal file, abstracted to a sequence of entries.  Loading skips the
 * entries that do not make a record; saving keeps only the newest 50; adding
 * and deleting are a load, a sequence operation and a save.
 *
 * The file system and the JSON codec are not modelled: the file is a
 * `JournalFile` value (absent, undecodable, not a list, or a list of
 * entries), and a save returns the file it leaves behind.
 */
module History {
  import opened Base

  /** `DownloadRecord`. */
  datatype Record = Record(
    id: string,
    timestamp: string,
    url: string,
    title: string,
    filename: string,
    filepath: string,
    mode: string,
    fileSize: int,
    status: string,
    errorMessage: Option<string>)

  /**
   * A JSON object found in the journal: each known key present or not, and
   * the set of keys `DownloadRecord` does not declare.
   */
  datatype RecordDict = RecordDict(
    id: Option<string>,
    timestamp: Option<string>,
    url: Option<string>,
    title: Option<string>,
    filename: Option<string>,
    filepath: Option<string>,
    mode: Option<string>,
    fileSize: Option<int>,
    status: Option<string>,
    errorMessage: Option<Option<string>>,
    unknownKeys: set<string>)

  /** One element of the journal's top-level list. */
  datatype Item = NotADict | Dict(fields: RecordDict)

  /** What `load_history` finds on disk. */
  datatype JournalFile =
    | Missing                     // the file does not exist
    | Unreadable                  // open or JSON decoding fails
    | NotAList                    // the top-level JSON value is not a list
    | Journal(items: seq<Item>)

  /**
   * The values the field factories produce: `id(k)` is the `uuid4` string and
   * `timestamp(k)` the `datetime.now().isoformat()` string generated for the
   * record built from the journal's `k`-th entry.
   */
  datatype Fresh = Fresh(id: nat -> string, timestamp: nat -> string)

  /** The cap `save_history` puts on the journal. */
  const MaxRecords: nat := 50

  // ---------------------------------------------------------------------
  // from_dict / to_dict
  // ---------------------------------------------------------------------

  /** `asdict(record)`: every field present, no other key. */
  function ToDict(r: Record): (d: RecordDict)
    ensures Complete(d)
    ensures d.id == Some(r.id) && d.timestamp == Some(r.timestamp) && d.url == Some(r.url)
    ensures d.title == Some(r.title) && d.filename == Some(r.filename) && d.filepath == Some(r.filepath)
    ensures d.mode == Some(r.mode) && d.fileSize == Some(r.fileSize) && d.status == Some(r.status)
    ensures d.errorMessage == Some(r.errorMessage)
  {
    RecordDict(Some(r.id), Some(r.timestamp), Some(r.url), Some(r.title), Some(r.filename),
               Some(r.filepath), Some(r.mode), Some(r.fileSize), Some(r.status),
               Some(r.errorMessage), {})
  }

  /**
   * `DownloadRecord.from_dict(d)`, i.e. `DownloadRecord(**d)`: `None` where
   * the constructor raises `TypeError` (an unexpected keyword); a missing key
   * takes its field's default, `freshId`/`freshTimestamp` for the factories.
   */
  function FromDict(d: RecordDict, freshId: string, freshTimestamp: string): (r: Option<Record>)
    ensures r.None? <==> d.unknownKeys != {}
    ensures r.Some? ==> r.value.id == (if d.id.Some? then d.id.value else freshId)
    ensures r.Some? ==> r.value.timestamp == (if d.timestamp.Some? then d.timestamp.value else freshTimestamp)
    ensures r.Some? ==> r.value.status == (if d.status.Some? then d.status.value else "success")
    ensures r.Some? ==> r.value.fileSize == (if d.fileSize.Some? then d.fileSize.value else 0)
    ensures r.Some? ==> r.value.errorMessage == (if d.errorMessage.Some? then d.errorMessage.value else None)
    ensures r.Some? ==> r.value.url == (if d.url.Some? then d.url.value else "")
    ensures r.Some? ==> r.value.title == (if d.title.Some? then d.title.value else "")
    ensures r.Some? ==> r.value.filename == (if d.filename.Some? then d.filename.value else "")
    ensures r.Some? ==> r.value.filepath == (if d.filepath.Some? then d.filepath.value else "")
    ensures r.Some? ==> r.value.mode == (if d.mode.Some? then d.mode.value else "")
  {
    if d.unknownKeys != {} then None
    else Some(Record(
      d.id.GetOr(freshId), d.timestamp.GetOr(freshTimestamp),
      d.url.GetOr(""), d.title.GetOr(""), d.filename.GetOr(""), d.filepath.GetOr(""),
      d.mode.GetOr(""), d.fileSize.GetOr(0), d.status.GetOr("success"),
      d.errorMessage.GetOr(None)))
  }

  /** A dict with every known key and no other. */
  predicate Complete(d: RecordDict)
  {
    && d.id.Some? && d.timestamp.Some? && d.url.Some? && d.title.Some? && d.filename.Some?
    && d.filepath.Some? && d.mode.Some? && d.fileSize.Some? && d.status.Some?
    && d.errorMessage.Some? && d.unknownKeys == {}
  }

  /** `from_dict(to_dict(r))` is `r`, whatever the factories would produce. */
  lemma FromToDict(r: Record, freshId: string, freshTimestamp: string)
    ensures FromDict(ToDict(r), freshId, freshTimestamp) == Some(r)
  {
  }

  /** Conversely a complete dict survives `from_dict` then `to_dict` unchanged. */
  lemma ToFromDict(d: RecordDict, freshId: string, freshTimestamp: string)
    requires Complete(d)
    ensures FromDict(d, freshId, freshTimestamp).Some?
    ensures ToDict(FromDict(d, freshId, freshTimestamp).value) == d
  {
  }

  // ---------------------------------------------------------------------
  // load_history
  // ---------------------------------------------------------------------

  /** The record the journal entry at position `k` contributes, if any. */
  function ParseItem(item: Item, k: nat, gen: Fresh): (r: Option<Record>)
    ensures r.Some? <==> item.Dict? && item.fields.unknownKeys == {}
  {
    match item
    case NotADict => None
    case Dict(d) => FromDict(d, gen.id(k), gen.timestamp(k))
  }

  /** The records of the entries `items`, the first of which sits at position `offset`. */
  function ParseFrom(items: seq<Item>, offset: nat, gen: Fresh): (rs: seq<Record>)
    ensures |rs| <= |items|
    decreases |items|
  {
    if |items| == 0 then []
    else
      var head := ParseItem(items[0], offset, gen);
      (if head.Some? then [head.value] else []) + ParseFrom(items[1..], offset + 1, gen)
  }

  /** `load_history()`: the records of the journal, `[]` when there is none to read. */
  function Load(file: JournalFile, gen: Fresh): (rs: seq<Record>)
    ensures !file.Journal? ==> rs == []
    ensures file.Journal? ==> |rs| <= |file.items|
  {
    if file.Journal? then ParseFrom(file.items, 0, gen) else []
  }

  /** Parsing one more entry appends that entry's record, if it makes one. */
  lemma {:induction false} ParseFromSnoc(items: seq<Item>, item: Item, offset: nat, gen: Fresh)
    ensures var tail := ParseItem(item, offset + |items|, gen);
            ParseFrom(items + [item], offset, gen)
            == ParseFrom(items, offset, gen) + (if tail.Some? then [tail.value] else [])
    decreases |items|
  {
    if |items| == 0 {
      assert items + [item] == [item];
    } else {
      assert (items + [item])[0] == items[0];
      assert (items + [item])[1..] == items[1..] + [item];
      ParseFromSnoc(items[1..], item, offset + 1, gen);
      var head := ParseItem(items[0], offset, gen);
      var tail := ParseItem(item, offset + |items|, gen);
      ConcatAssoc(if head.Some? then [head.value] else [],
                  ParseFrom(items[1..], offset + 1, gen),
                  if tail.Some? then [tail.value] else []);
    }
  }

  /** `load_history()` as the source writes it: one pass over the list, skipping bad entries. */
  method LoadHistory(file: JournalFile, gen: Fresh) returns (records: seq<Record>)
    ensures records == Load(file, gen)
  {
    if !file.Journal? {
      return [];
    }
    var items := file.items;
    records := [];
    var k := 0;
    while k < |items|
      invariant k <= |items|
      invariant records == ParseFrom(items[..k], 0, gen)
    {
      ParseFromSnoc(items[..k], items[k], 0, gen);
      assert items[..k + 1] == items[..k] + [items[k]];
      var r := ParseItem(items[k], k, gen);
      if r.Some? {
        records := records + [r.value];
      }
      k := k + 1;
    }
    assert items[..k] == items;
  }

  /** A journal of complete dicts loads as exactly their records, in order. */
  lemma {:induction false} ParseEncoded(rs: seq<Record>, offset: nat, gen: Fresh)
    ensures ParseFrom(Encode(rs), offset, gen) == rs
    decreases |rs|
  {
    if |rs| > 0 {
      assert Encode(rs)[1..] == Encode(rs[1..]);
      ParseEncoded(rs[1..], offset + 1, gen);
      assert rs == [rs[0]] + rs[1..];
    }
  }

  /** Only dicts without unknown keys make records: a journal of other entries loads as `[]`. */
  lemma {:induction false} ParseNothingValid(items: seq<Item>, offset: nat, gen: Fresh)
    requires forall k :: 0 <= k < |items| ==> !(items[k].Dict? && items[k].fields.unknownKeys == {})
    ensures ParseFrom(items, offset, gen) == []
    decreases |items|
  {
    if |items| > 0 {
      ParseNothingValid(items[1..], offset + 1, gen);
    }
  }

  /** The journal `[good, 42]`: the non-dict entry is skipped and the good one loads. */
  lemma LoadSkipsNonDict(r: Record, gen: Fresh)
    ensures Load(Journal([Dict(ToDict(r)), NotADict]), gen) == [r]
  {
    var items := [Dict(ToDict(r)), NotADict];
    assert items[1..] == [NotADict];
    assert ParseFrom([NotADict], 1, gen) == [] + ParseFrom([], 2, gen);
    assert ParseFrom(items, 0, gen) == [r] + ParseFrom([NotADict], 1, gen);
  }

  /** A dict with a key the record does not declare is skipped, the rest still load. */
  lemma LoadSkipsUnknownKey(r: Record, d: RecordDict, gen: Fresh)
    requires d.unknownKeys != {}
    ensures Load(Journal([Dict(d), Dict(ToDict(r))]), gen) == [r]
  {
    var items := [Dict(d), Dict(ToDict(r))];
    assert items[1..] == [Dict(ToDict(r))];
    assert ParseFrom([Dict(ToDict(r))], 1, gen) == [r] + ParseFrom([], 2, gen);
    assert ParseFrom(items, 0, gen) == [] + ParseFrom([Dict(ToDict(r))], 1, gen);
  }

  // ---------------------------------------------------------------------
  // save_history
  // ---------------------------------------------------------------------

  /** `records[-50:]`. */
  function Last50(rs: seq<Record>): (r: seq<Record>)
    ensures |r| == if |rs| <= MaxRecords then |rs| else MaxRecords
    ensures r == rs[|rs| - |r|..]
  {
    if |rs| <= MaxRecords then rs else rs[|rs| - MaxRecords..]
  }

  /** The journal entries `json.dump` writes for the records. */
  function Encode(rs: seq<Record>): (items: seq<Item>)
    ensures |items| == |rs|
    ensures forall k :: 0 <= k < |rs| ==> items[k] == Dict(ToDict(rs[k]))
  {
    if |rs| == 0 then [] else [Dict(ToDict(rs[0]))] + Encode(rs[1..])
  }

  /**
   * How the write goes: it succeeds; `open` fails (the file is untouched);
   * or the write fails after `open` truncated the file, leaving a prefix of
   * the JSON text that does not decode.
   */
  datatype WriteFault = WriteOk | OpenFailed | Interrupted

  /** `save_history(records)`: the file it leaves behind.  `IOError` is swallowed. */
  function Save(rs: seq<Record>, file: JournalFile, fault: WriteFault): (after: JournalFile)
    ensures fault == WriteOk ==> after.Journal? && |after.items| <= MaxRecords
    ensures fault == OpenFailed ==> after == file
    ensures fault == Interrupted ==> after == Unreadable
  {
    match fault
    case WriteOk => Journal(Encode(Last50(rs)))
    case OpenFailed => file
    case Interrupted => Unreadable
  }

  /** What a successful save writes is what the next load returns: the newest 50 records. */
  lemma LoadAfterSave(rs: seq<Record>, file: JournalFile, gen: Fresh)
    ensures Load(Save(rs, file, WriteOk), gen) == Last50(rs)
  {
    ParseEncoded(Last50(rs), 0, gen);
  }

  /** A successful save of at most 50 records loads back as exactly those records. */
  lemma SaveSmallIsExact(rs: seq<Record>, file: JournalFile, gen: Fresh)
    requires |rs| <= MaxRecords
    ensures Load(Save(rs, file, WriteOk), gen) == rs
  {
    LoadAfterSave(rs, file, gen);
  }

  /** An interrupted save loses the history: the next load returns `[]`. */
  lemma InterruptedSaveLoadsEmpty(rs: seq<Record>, file: JournalFile, gen: Fresh)
    ensures Load(Save(rs, file, Interrupted), gen) == []
  {
  }

  /** Capping, then adding one, then capping is the same as adding one, then capping. */
  lemma Last50Absorb(rs: seq<Record>, r: Record)
    ensures Last50(Last50(rs) + [r]) == Last50(rs + [r])
  {
    var a := Last50(rs) + [r];
    var b := rs + [r];
    assert a == b[|b| - |a|..];
    var la := Last50(a);
    var lb := Last50(b);
    assert |la| == |lb|;
    assert la == a[|a| - |la|..] == b[|b| - |lb|..];
  }

  // ---------------------------------------------------------------------
  // add_download / delete_download
  // ---------------------------------------------------------------------

  /** `add_download(record)`: the file after loading, appending and saving. */
  function Add(file: JournalFile, gen: Fresh, r: Record, fault: WriteFault): JournalFile
  {
    Save(Load(file, gen) + [r], file, fault)
  }

  /** The records of `rs` whose id is not `id`, in their order. */
  function WithoutId(rs: seq<Record>, id: string): (kept: seq<Record>)
    ensures |kept| <= |rs|
    ensures forall k :: 0 <= k < |kept| ==> kept[k].id != id
    ensures forall x :: x in kept <==> x in rs && x.id != id
    decreases |rs|
  {
    if |rs| == 0 then []
    else (if rs[0].id != id then [rs[0]] else []) + WithoutId(rs[1..], id)
  }

  /** `delete_download(record_id)`: the file after loading, filtering and saving. */
  function Delete(file: JournalFile, gen: Fresh, id: string, fault: WriteFault): JournalFile
  {
    Save(WithoutId(Load(file, gen), id), file, fault)
  }

  /**
   * After a successful add the new record is the newest, the history is the
   * old one with it appended (capped), and when the old history held 50
   * records exactly the oldest one is gone.
   */
  lemma AddAppendsNewest(file: JournalFile, gen: Fresh, r: Record)
    ensures var before := Load(file, gen);
            var after := Load(Add(file, gen, r, WriteOk), gen);
            && after == Last50(before + [r])
            && |after| > 0 && after[|after| - 1] == r
            && (|before| < MaxRecords ==> after == before + [r])
            && (|before| == MaxRecords ==> after == before[1..] + [r])
  {
    var before := Load(file, gen);
    LoadAfterSave(before + [r], file, gen);
    if |before| == MaxRecords {
      assert (before + [r])[1..] == before[1..] + [r];
    }
  }

  /** A failed add or delete that could not open the file leaves it as it was. */
  lemma FailedOpenKeepsFile(file: JournalFile, gen: Fresh, r: Record, id: string)
    ensures Add(file, gen, r, OpenFailed) == file
    ensures Delete(file, gen, id, OpenFailed) == file
  {
  }

  /** Adds one after another from `file`; the history after each add feeds the next. */
  function AddAll(file: JournalFile, gen: Fresh, rs: seq<Record>): JournalFile
    decreases |rs|
  {
    if |rs| == 0 then file
    else AddAll(Add(file, gen, rs[0], WriteOk), gen, rs[1..])
  }

  /**
   * However many records are added, the history is the newest 50 of the old
   * history followed by the added records: the cap never drops a newer
   * record while keeping an older one.
   */
  lemma {:induction false} AddAllKeepsNewest(file: JournalFile, gen: Fresh, rs: seq<Record>)
    requires |rs| > 0
    ensures Load(AddAll(file, gen, rs), gen) == Last50(Load(file, gen) + rs)
    decreases |rs|
  {
    var next := Add(file, gen, rs[0], WriteOk);
    AddLoads(file, gen, rs[0]);
    if |rs| > 1 {
      assert AddAll(file, gen, rs) == AddAll(next, gen, rs[1..]);
      AddAllKeepsNewest(next, gen, rs[1..]);
      Last50Cons(Load(file, gen), rs);
    } else {
      assert rs == [rs[0]];
      assert AddAll(next, gen, rs[1..]) == next;
    }
  }

  lemma AddLoads(file: JournalFile, gen: Fresh, r: Record)
    ensures Load(Add(file, gen, r, WriteOk), gen) == Last50(Load(file, gen) + [r])
  {
    LoadAfterSave(Load(file, gen) + [r], file, gen);
  }

  /** One step of the induction above, on sequences alone. */
  lemma Last50Cons(before: seq<Record>, rs: seq<Record>)
    requires |rs| > 1
    ensures Last50(Last50(before + [rs[0]]) + rs[1..]) == Last50(before + rs)
  {
    Last50Concat(before + [rs[0]], rs[1..]);
    ConcatAssoc(before, [rs[0]], rs[1..]);
    assert [rs[0]] + rs[1..] == rs;
  }

  /** Capping the front of a concatenation first does not change the capped result. */
  lemma Last50Concat(a: seq<Record>, b: seq<Record>)
    ensures Last50(Last50(a) + b) == Last50(a + b)
  {
    var x := Last50(a) + b;
    var y := a + b;
    assert x == y[|y| - |x|..];
    var lx := Last50(x);
    var ly := Last50(y);
    assert |lx| == |ly|;
    assert lx == x[|x| - |lx|..] == y[|y| - |ly|..];
  }

  /** Filtering twice by the same id is filtering once. */
  lemma {:induction false} WithoutIdIdempotent(rs: seq<Record>, id: string)
    ensures WithoutId(WithoutId(rs, id), id) == WithoutId(rs, id)
    decreases |rs|
  {
    if |rs| > 0 {
      WithoutIdIdempotent(rs[1..], id);
      var head := if rs[0].id != id then [rs[0]] else [];
      WithoutIdConcat(head, WithoutId(rs[1..], id), id);
      if rs[0].id != id {
        assert WithoutId(head, id) == head by {
          assert head[1..] == [];
        }
      }
    }
  }

  /** Filtering distributes over concatenation, so the relative order of kept records is kept. */
  lemma {:induction false} WithoutIdConcat(a: seq<Record>, b: seq<Record>, id: string)
    ensures WithoutId(a + b, id) == WithoutId(a, id) + WithoutId(b, id)
    decreases |a|
  {
    if |a| == 0 {
      assert a + b == b;
    } else {
      assert (a + b)[0] == a[0];
      assert (a + b)[1..] == a[1..] + b;
      WithoutIdConcat(a[1..], b, id);
      ConcatAssoc(if a[0].id != id then [a[0]] else [], WithoutId(a[1..], id), WithoutId(b, id));
    }
  }

  /** When no record carries the id, filtering changes nothing. */
  lemma {:induction false} WithoutAbsentId(rs: seq<Record>, id: string)
    requires forall k :: 0 <= k < |rs| ==> rs[k].id != id
    ensures WithoutId(rs, id) == rs
    decreases |rs|
  {
    if |rs| > 0 {
      WithoutAbsentId(rs[1..], id);
      assert rs == [rs[0]] + rs[1..];
    }
  }

  /**
   * After a successful delete no loaded record has the id, the others keep
   * their order, and deleting an id nobody has from a history of at most 50
   * records leaves it unchanged.
   */
  lemma DeleteRemovesOnlyId(file: JournalFile, gen: Fresh, id: string)
    ensures var before := Load(file, gen);
            var after := Load(Delete(file, gen, id, WriteOk), gen);
            && after == Last50(WithoutId(before, id))
            && (forall k :: 0 <= k < |after| ==> after[k].id != id)
            && (((forall k :: 0 <= k < |before| ==> before[k].id != id) && |before| <= MaxRecords)
                ==> after == before)
  {
    var before := Load(file, gen);
    var kept := WithoutId(before, id);
    assert Delete(file, gen, id, WriteOk) == Save(kept, file, WriteOk);
    LoadAfterSave(kept, file, gen);
    Last50KeepsAbsent(kept, id);
    if (forall k :: 0 <= k < |before| ==> before[k].id != id) && |before| <= MaxRecords {
      WithoutAbsentId(before, id);
      assert Last50(kept) == before;
    }
  }

  /** Capping never brings back an id the list does not hold. */
  lemma Last50KeepsAbsent(rs: seq<Record>, id: string)
    requires forall k :: 0 <= k < |rs| ==> rs[k].id != id
    ensures forall k :: 0 <= k < |Last50(rs)| ==> Last50(rs)[k].id != id
  {
    var l := Last50(rs);
    forall k | 0 <= k < |l|
      ensures l[k].id != id
    {
      assert l[k] == rs[|rs| - |l| + k];
    }
  }

  // ---------------------------------------------------------------------
  // Unique ids
  // ---------------------------------------------------------------------

  predicate UniqueIds(rs: seq<Record>)
  {
    forall i, j :: 0 <= i < j < |rs| ==> rs[i].id != rs[j].id
  }

  /** Appending a record with a gen id and capping keeps ids unique. */
  lemma AddKeepsUniqueIds(file: JournalFile, gen: Fresh, r: Record)
    requires UniqueIds(Load(file, gen))
    requires forall k :: 0 <= k < |Load(file, gen)| ==> Load(file, gen)[k].id != r.id
    ensures UniqueIds(Load(Add(file, gen, r, WriteOk), gen))
  {
    var all := Load(file, gen) + [r];
    LoadAfterSave(all, file, gen);
    SnocUniqueIds(Load(file, gen), r);
    SuffixUniqueIds(all, |all| - |Last50(all)|);
  }

  lemma SnocUniqueIds(rs: seq<Record>, r: Record)
    requires UniqueIds(rs)
    requires forall k :: 0 <= k < |rs| ==> rs[k].id != r.id
    ensures UniqueIds(rs + [r])
  {
    var all := rs + [r];
    forall i, j | 0 <= i < j < |all|
      ensures all[i].id != all[j].id
    {
      assert all[i] == rs[i];
      if j < |rs| {
        assert all[j] == rs[j];
      }
    }
  }

  lemma SuffixUniqueIds(rs: seq<Record>, from: nat)
    requires UniqueIds(rs) && from <= |rs|
    ensures UniqueIds(rs[from..])
  {
    var s := rs[from..];
    forall i, j | 0 <= i < j < |s|
      ensures s[i].id != s[j].id
    {
      assert s[i] == rs[from + i] && s[j] == rs[from + j];
    }
  }

  /** Filtering keeps ids unique. */
  lemma {:induction false} WithoutIdUnique(rs: seq<Record>, id: string)
    requires UniqueIds(rs)
    ensures UniqueIds(WithoutId(rs, id))
    decreases |rs|
  {
    if |rs| > 0 {
      SuffixUniqueIds(rs, 1);
      WithoutIdUnique(rs[1..], id);
      var rest := WithoutId(rs[1..], id);
      if rs[0].id != id {
        HeadIdFresh(rs);
        ConsUniqueIds(rs[0], rest);
        assert WithoutId(rs, id) == [rs[0]] + rest;
      } else {
        assert WithoutId(rs, id) == rest;
      }
    }
  }

  /** In a list with unique ids, no later record shares the first one's id. */
  lemma HeadIdFresh(rs: seq<Record>)
    requires |rs| > 0 && UniqueIds(rs)
    ensures forall y :: y in rs[1..] ==> y.id != rs[0].id
  {
    forall y | y in rs[1..]
      ensures y.id != rs[0].id
    {
      var m :| 0 <= m < |rs[1..]| && rs[1..][m] == y;
      assert rs[1 + m] == y;
    }
  }

  /** Putting a record in front of a list with unique ids, none of them its own, keeps ids unique. */
  lemma ConsUniqueIds(x: Record, rest: seq<Record>)
    requires UniqueIds(rest) && forall y :: y in rest ==> y.id != x.id
    ensures UniqueIds([x] + rest)
  {
    var kept := [x] + rest;
    forall i, j | 0 <= i < j < |kept|
      ensures kept[i].id != kept[j].id
    {
      if i == 0 {
        assert kept[j] == rest[j - 1];
      } else {
        assert kept[i] == rest[i - 1] && kept[j] == rest[j - 1];
      }
    }
  }

  /** A successful delete keeps ids unique. */
  lemma DeleteKeepsUniqueIds(file: JournalFile, gen: Fresh, id: string)
    requires UniqueIds(Load(file, gen))
    ensures UniqueIds(Load(Delete(file, gen, id, WriteOk), gen))
  {
    var kept := WithoutId(Load(file, gen), id);
    WithoutIdUnique(Load(file, gen), id);
    LoadAfterSave(kept, file, gen);
    SuffixUniqueIds(kept, |kept| - |Last50(kept)|);
  }
}

/** The byte-offset index of analysis output files (scripts/explore_pysa_models.py): one pass
    over the lines of a file records where each message is; `_read` gets it back. */
module OutputIndex {
  import opened Outcomes
  import opened Indices

  newtype byte = x: int | 0 <= x < 256

  type Bytes = seq<byte>

  datatype FilePosition = FilePosition(fileIndex: nat, offset: nat, length: nat)

  // ----- Lines and offsets

  const NEWLINE: byte := 10

  function LineLength(b: Bytes): (n: nat)
    requires b != []
    ensures 0 < n <= |b|
    ensures NEWLINE !in b[..n - 1]
    ensures n < |b| ==> b[n - 1] == NEWLINE
  {
    if b[0] == NEWLINE || |b| == 1 then 1 else 1 + LineLength(b[1..])
  }

  /** Iterating over a binary file: lines keep their newline, only the last may lack it. */
  function Lines(b: Bytes): seq<Bytes> {
    if b == [] then []
    else
      var n := LineLength(b);
      [b[..n]] + Lines(b[n..])
  }

  function Joined(lines: seq<Bytes>): Bytes {
    if lines == [] then [] else Joined(lines[..|lines| - 1]) + lines[|lines| - 1]
  }

  /** Where line `i` starts: the bytes before it. */
  function Offset(lines: seq<Bytes>, i: nat): nat
    requires i <= |lines|
  {
    |Joined(lines[..i])|
  }

  lemma {:induction false} JoinedCons(first: Bytes, rest: seq<Bytes>)
    ensures Joined([first] + rest) == first + Joined(rest)
  {
    if rest != [] {
      var init := rest[..|rest| - 1];
      assert ([first] + rest)[..|rest|] == [first] + init;
      JoinedCons(first, init);
    } else {
      assert Joined([first]) == [] + first;
    }
  }

  lemma {:induction false} JoinedSplit(lines: seq<Bytes>, i: nat)
    requires i <= |lines|
    ensures Joined(lines) == Joined(lines[..i]) + Joined(lines[i..])
  {
    if i == |lines| {
      assert lines[..i] == lines;
    } else {
      var n := |lines| - 1;
      JoinedSplit(lines[..n], i);
      assert lines[..n][..i] == lines[..i] && lines[i..][..n - i] == lines[..n][i..];
    }
  }

  lemma {:induction false} JoinedLines(b: Bytes)
    ensures Joined(Lines(b)) == b
  {
    if b == [] {
    } else {
      var n := LineLength(b);
      JoinedLines(b[n..]);
      JoinedCons(b[..n], Lines(b[n..]));
    }
  }

  lemma {:induction false} LinesEndAtNewlines(b: Bytes, i: nat)
    requires i < |Lines(b)|
    ensures Lines(b)[i] != [] && NEWLINE !in Lines(b)[i][..|Lines(b)[i]| - 1]
    ensures i + 1 < |Lines(b)| ==> Lines(b)[i][|Lines(b)[i]| - 1] == NEWLINE
  {
    var n := LineLength(b);
    if i == 0 {
      assert b[..n][..n - 1] == b[..n - 1];
    } else {
      LinesEndAtNewlines(b[n..], i - 1);
    }
  }

  /** Lines tile the file: line `i` ends where the next begins, the last ends with the file, and
      each is cut out by its offset and length. A line has a newline at its end and nowhere else;
      only the last may lack it. */
  lemma LinesTile(b: Bytes, i: nat)
    requires i < |Lines(b)|
    ensures Offset(Lines(b), 0) == 0 && Offset(Lines(b), |Lines(b)|) == |b|
    ensures Offset(Lines(b), i) + |Lines(b)[i]| == Offset(Lines(b), i + 1) <= |b|
    ensures b[Offset(Lines(b), i)..Offset(Lines(b), i) + |Lines(b)[i]|] == Lines(b)[i]
    ensures Lines(b)[i] != [] && NEWLINE !in Lines(b)[i][..|Lines(b)[i]| - 1]
    ensures i + 1 < |Lines(b)| ==> Lines(b)[i][|Lines(b)[i]| - 1] == NEWLINE
  {
    var lines := Lines(b);
    LinesEndAtNewlines(b, i);
    JoinedLines(b);
    assert lines[..|lines|] == lines;
    JoinedSplit(lines, i + 1);
    assert lines[..i + 1][..i] == lines[..i];
    assert Joined(lines[..i + 1]) == Joined(lines[..i]) + lines[i];
    assert b == Joined(lines[..i]) + lines[i] + Joined(lines[i + 1..]);
  }

  /** `_iter_with_offset`. */
  method IterWithOffset(lines: seq<Bytes>) returns (pairs: seq<(Bytes, nat)>)
    ensures |pairs| == |lines|
    ensures forall i :: 0 <= i < |lines| ==> pairs[i] == (lines[i], Offset(lines, i))
  {
    pairs := [];
    var offset := 0;
    for k := 0 to |lines|
      invariant |pairs| == k && offset == Offset(lines, k)
      invariant forall i :: 0 <= i < k ==> pairs[i] == (lines[i], Offset(lines, i))
    {
      pairs := pairs + [(lines[k], offset)];
      assert lines[..k + 1][..k] == lines[..k];
      offset := offset + |lines[k]|;
    }
  }

  // ----- The index

  type Callable(==, !new)

  /** What `json.loads` makes of a line: bytes that are not UTF-8 are skipped, other bad input
      raises, and so does an entry without a callable. */
  datatype Kind = ModelKind | IssueKind | CallGraphKind | HigherOrderCallGraphKind | UnexpectedKind

  datatype Message = Undecodable | Malformed | NoKind | Entry(kind: Kind, callable: Option<Callable>)

  type Parser = Bytes -> Message

  datatype Index = Index(models: map<Callable, FilePosition>, issues: map<Callable, seq<FilePosition>>,
                         callGraphs: map<Callable, FilePosition>, higherOrderCallGraphs: map<Callable, FilePosition>)

  const EMPTY := Index(map[], map[], map[], map[])

  function IssuesAt(issues: map<Callable, seq<FilePosition>>, c: Callable): seq<FilePosition> {
    if c in issues then issues[c] else []
  }

  /** The line cannot be indexed, whatever came before it. */
  predicate Bad(m: Message) {
    m.Malformed? || (m.Entry? && (m.kind.UnexpectedKind? || m.callable.None?))
  }

  /** The lines that can be indexed: those that are skipped, because they are not UTF-8 or, like the
      header, have no kind, and those of one of the four kinds that name a callable. */
  predicate IsIndexable(m: Message) {
    match m
    case Undecodable => true
    case Malformed => false
    case NoKind => true
    case Entry(kind, callable) =>
      callable.Some? && (kind.ModelKind? || kind.IssueKind? || kind.CallGraphKind? || kind.HigherOrderCallGraphKind?)
  }

  predicate Names(m: Message, kind: Kind) {
    m.Entry? && m.kind == kind && m.callable.Some?
  }

  function RecordLast(d: map<Callable, FilePosition>, kind: Kind, m: Message, pos: FilePosition)
    : map<Callable, FilePosition>
  {
    if Names(m, kind) then d[m.callable.value := pos] else d
  }

  function RecordAll(d: map<Callable, seq<FilePosition>>, m: Message, pos: FilePosition)
    : map<Callable, seq<FilePosition>>
  {
    if Names(m, IssueKind) then d[m.callable.value := IssuesAt(d, m.callable.value) + [pos]] else d
  }

  /** The effect of one line on each dictionary; `None` when it raises: on a line that cannot be
      indexed and on a second model for one callable. */
  function Record(idx: Index, m: Message, pos: FilePosition): Option<Index> {
    if Bad(m) || (Names(m, ModelKind) && m.callable.value in idx.models) then None
    else Some(Index(RecordLast(idx.models, ModelKind, m, pos),
                    RecordAll(idx.issues, m, pos),
                    RecordLast(idx.callGraphs, CallGraphKind, m, pos),
                    RecordLast(idx.higherOrderCallGraphs, HigherOrderCallGraphKind, m, pos)))
  }

  function PositionOf(file: nat, lines: seq<Bytes>, i: nat): FilePosition
    requires i < |lines|
  {
    FilePosition(file, Offset(lines, i), |lines[i]|)
  }

  /** The index of the first `n` lines, starting from `idx`. */
  function IndexLines(parse: Parser, file: nat, lines: seq<Bytes>, n: nat, idx: Index): Option<Index>
    requires n <= |lines|
  {
    if n == 0 then Some(idx)
    else
      match IndexLines(parse, file, lines, n - 1, idx)
      case None => None
      case Some(before) => Record(before, parse(lines[n - 1]), PositionOf(file, lines, n - 1))
  }

  lemma {:induction false} RaisedStaysRaised(parse: Parser, file: nat, lines: seq<Bytes>, n: nat, m: nat, idx: Index)
    requires n <= m <= |lines| && IndexLines(parse, file, lines, n, idx).None?
    ensures IndexLines(parse, file, lines, m, idx).None?
  {
    if n == m {
    } else {
      RaisedStaysRaised(parse, file, lines, n, m - 1, idx);
    }
  }

  class AnalysisOutputIndex {
    var index: Index

    constructor (index: Index)
      ensures this.index == index
    {
      this.index := index;
    }

    /** `update`: entries of the other index replace entries with the same callable. What both
        indexes promised about reading entries back still holds. */
    method Update(other: AnalysisOutputIndex)
      modifies this
      ensures index == Merge(old(index), old(other.index))
      ensures forall files, parse :: Sound(files, parse, old(index)) && Sound(files, parse, old(other.index)) ==>
                Sound(files, parse, index)
      ensures Replaces(old(index).models, old(other.index).models, index.models)
      ensures Replaces(old(index).issues, old(other.index).issues, index.issues)
      ensures Replaces(old(index).callGraphs, old(other.index).callGraphs, index.callGraphs)
      ensures Replaces(old(index).higherOrderCallGraphs, old(other.index).higherOrderCallGraphs,
                       index.higherOrderCallGraphs)
    {
      forall files, parse | Sound(files, parse, index) && Sound(files, parse, other.index)
        ensures Sound(files, parse, Merge(index, other.index))
      {
        MergeIsSound(files, parse, index, other.index);
      }
      index := index.(models := index.models + other.index.models);
      index := index.(issues := index.issues + other.index.issues);
      index := index.(callGraphs := index.callGraphs + other.index.callGraphs);
      index := index.(higherOrderCallGraphs := index.higherOrderCallGraphs + other.index.higherOrderCallGraphs);
    }

    /** One turn of the loop over the lines. */
    method IndexLine(m: Message, pos: FilePosition) returns (ok: bool)
      modifies this
      ensures ok == Record(old(index), m, pos).Some?
      ensures ok ==> Some(index) == Record(old(index), m, pos)
      ensures m.Undecodable? || m.NoKind? ==> ok && index == old(index)
      ensures ok <==> IsIndexable(m) && !(m.Entry? && m.kind.ModelKind? && m.callable.value in old(index).models)
    {
      if m.Undecodable? || m.NoKind? {
        return true;
      }
      if m.Malformed? || m.kind.UnexpectedKind? || m.callable.None? {
        return false;
      }
      var c := m.callable.value;
      if m.kind == ModelKind {
        if c in index.models {
          return false;
        }
        index := index.(models := index.models[c := pos]);
      } else if m.kind == IssueKind {
        if c !in index.issues {
          index := index.(issues := index.issues[c := []]);
        }
        index := index.(issues := index.issues[c := index.issues[c] + [pos]]);
        assert index.issues == RecordAll(old(index).issues, m, pos);
      } else if m.kind == CallGraphKind {
        index := index.(callGraphs := index.callGraphs[c := pos]);
      } else {
        index := index.(higherOrderCallGraphs := index.higherOrderCallGraphs[c := pos]);
      }
      return true;
    }

    /** `index_json_output_file`. The dictionaries of a new index are shared defaults, so the
        starting point is whatever the process indexed before. */
    method IndexJsonOutputFile(parse: Parser, file: nat, contents: Bytes) returns (ok: bool)
      modifies this
      ensures ok == IndexLines(parse, file, Lines(contents), |Lines(contents)|, old(index)).Some?
      ensures ok ==> Some(index) == IndexLines(parse, file, Lines(contents), |Lines(contents)|, old(index))
    {
      var pairs := IterWithOffset(Lines(contents));
      ok := IndexPairs(parse, file, Lines(contents), pairs);
    }

    method IndexPairs(parse: Parser, file: nat, lines: seq<Bytes>, pairs: seq<(Bytes, nat)>) returns (ok: bool)
      requires |pairs| == |lines| && forall i :: 0 <= i < |lines| ==> pairs[i] == (lines[i], Offset(lines, i))
      modifies this
      ensures ok == IndexLines(parse, file, lines, |lines|, old(index)).Some?
      ensures ok ==> Some(index) == IndexLines(parse, file, lines, |lines|, old(index))
    {
      ghost var start := index;
      for k := 0 to |pairs|
        invariant Some(index) == IndexLines(parse, file, lines, k, start)
      {
        var (line, offset) := pairs[k];
        assert FilePosition(file, offset, |line|) == PositionOf(file, lines, k);
        ok := IndexLine(parse(line), FilePosition(file, offset, |line|));
        if !ok {
          RaisedStaysRaised(parse, file, lines, k + 1, |lines|, start);
          return;
        }
      }
      return true;
    }
  }

  /** All callables of both dictionaries, with the entry of the second wherever it has one. */
  ghost predicate Replaces<V(!new)>(a: map<Callable, V>, b: map<Callable, V>, r: map<Callable, V>) {
    && (forall c :: c in r <==> c in a || c in b)
    && (forall c :: c in b ==> r[c] == b[c])
    && (forall c :: c in a && c !in b ==> r[c] == a[c])
  }

  /** The callables of both dictionaries; where both have one, the second decides. */
  function Overlay<V>(a: map<Callable, V>, b: map<Callable, V>): map<Callable, V> {
    map c | c in a.Keys + b.Keys :: if c in b then b[c] else a[c]
  }

  function Merge(a: Index, b: Index): Index {
    Index(Overlay(a.models, b.models), Overlay(a.issues, b.issues), Overlay(a.callGraphs, b.callGraphs),
          Overlay(a.higherOrderCallGraphs, b.higherOrderCallGraphs))
  }

  // ----- Every entry reads back

  /** `_read`: seek, then read. Reading stops at the end of the file. */
  function Read(files: seq<Bytes>, pos: FilePosition): Option<Bytes> {
    if pos.fileIndex >= |files| then None
    else
      var b := files[pos.fileIndex];
      var start := if pos.offset <= |b| then pos.offset else |b|;
      var end := if pos.offset + pos.length <= |b| then pos.offset + pos.length else |b|;
      Some(b[start..end])
  }

  /** The position is that of a whole line of its file, whose message has this kind and callable. */
  ghost predicate ReadsBack(files: seq<Bytes>, parse: Parser, pos: FilePosition, kind: Kind, c: Callable) {
    && pos.fileIndex < |files|
    && Read(files, pos).Some? && parse(Read(files, pos).value) == Entry(kind, Some(c))
    && exists i :: 0 <= i < |Lines(files[pos.fileIndex])|
                   && pos == PositionOf(pos.fileIndex, Lines(files[pos.fileIndex]), i)
                   && Read(files, pos).value == Lines(files[pos.fileIndex])[i]
  }

  /** Every entry of the index stands in the given relation to its kind and callable. */
  ghost predicate EntriesAre(idx: Index, good: (FilePosition, Kind, Callable) -> bool) {
    && (forall c :: c in idx.models ==> good(idx.models[c], ModelKind, c))
    && (forall c :: c in idx.callGraphs ==> good(idx.callGraphs[c], CallGraphKind, c))
    && (forall c :: c in idx.higherOrderCallGraphs ==>
          good(idx.higherOrderCallGraphs[c], HigherOrderCallGraphKind, c))
    && (forall c, i :: c in idx.issues && 0 <= i < |idx.issues[c]| ==> good(idx.issues[c][i], IssueKind, c))
  }

  /** Every entry reads back to a line of its kind and callable. */
  ghost predicate Sound(files: seq<Bytes>, parse: Parser, idx: Index) {
    EntriesAre(idx, (pos, kind, c) => ReadsBack(files, parse, pos, kind, c))
  }

  /** Reading at the position of a line gives exactly that line. */
  lemma ReadReturnsLine(files: seq<Bytes>, file: nat, i: nat)
    requires file < |files| && i < |Lines(files[file])|
    ensures Read(files, PositionOf(file, Lines(files[file]), i)) == Some(Lines(files[file])[i])
  {
    LinesTile(files[file], i);
  }

  lemma LineReadsBack(files: seq<Bytes>, parse: Parser, file: nat, i: nat)
    requires file < |files| && i < |Lines(files[file])|
    ensures var m := parse(Lines(files[file])[i]);
            m.Entry? && m.callable.Some? ==>
              ReadsBack(files, parse, PositionOf(file, Lines(files[file]), i), m.kind, m.callable.value)
  {
    ReadReturnsLine(files, file, i);
  }

  lemma RecordKeepsEntries(idx: Index, m: Message, pos: FilePosition, good: (FilePosition, Kind, Callable) -> bool)
    requires EntriesAre(idx, good)
    requires m.Entry? && m.callable.Some? ==> good(pos, m.kind, m.callable.value)
    ensures Record(idx, m, pos).Some? ==> EntriesAre(Record(idx, m, pos).value, good)
  {
  }

  lemma {:induction false} IndexingKeepsEntries(parse: Parser, file: nat, lines: seq<Bytes>, n: nat, idx: Index,
                                                good: (FilePosition, Kind, Callable) -> bool)
    requires n <= |lines| && EntriesAre(idx, good)
    requires forall i :: 0 <= i < n && parse(lines[i]).Entry? && parse(lines[i]).callable.Some? ==>
               good(PositionOf(file, lines, i), parse(lines[i]).kind, parse(lines[i]).callable.value)
    requires IndexLines(parse, file, lines, n, idx).Some?
    ensures EntriesAre(IndexLines(parse, file, lines, n, idx).value, good)
  {
    if n == 0 {
    } else {
      IndexingKeepsEntries(parse, file, lines, n - 1, idx, good);
      RecordKeepsEntries(IndexLines(parse, file, lines, n - 1, idx).value, parse(lines[n - 1]),
                         PositionOf(file, lines, n - 1), good);
    }
  }

  /** Indexing a file on top of any sound index gives a sound index. */
  lemma IndexingIsSound(files: seq<Bytes>, parse: Parser, file: nat, idx: Index)
    requires file < |files| && Sound(files, parse, idx)
    requires IndexLines(parse, file, Lines(files[file]), |Lines(files[file])|, idx).Some?
    ensures Sound(files, parse, IndexLines(parse, file, Lines(files[file]), |Lines(files[file])|, idx).value)
  {
    var lines := Lines(files[file]);
    forall i | 0 <= i < |lines| && parse(lines[i]).Entry? && parse(lines[i]).callable.Some?
      ensures ReadsBack(files, parse, PositionOf(file, lines, i), parse(lines[i]).kind, parse(lines[i]).callable.value)
    {
      LineReadsBack(files, parse, file, i);
    }
    IndexingKeepsEntries(parse, file, lines, |lines|, idx, (pos, kind, c) => ReadsBack(files, parse, pos, kind, c));
  }

  /** Merging sound indexes, in any order and however often, gives a sound index. */
  lemma MergeIsSound(files: seq<Bytes>, parse: Parser, a: Index, b: Index)
    requires Sound(files, parse, a) && Sound(files, parse, b)
    ensures Sound(files, parse, Merge(a, b))
  {
  }

  function MergeAll(indexes: seq<Index>): Index {
    if indexes == [] then EMPTY else Merge(MergeAll(indexes[..|indexes| - 1]), indexes[|indexes| - 1])
  }

  /** The index of a directory: per-file indexes merged in whatever order the workers finish. */
  lemma {:induction false} MergeAllIsSound(files: seq<Bytes>, parse: Parser, indexes: seq<Index>)
    requires forall i :: 0 <= i < |indexes| ==> Sound(files, parse, indexes[i])
    ensures Sound(files, parse, MergeAll(indexes))
  {
    if indexes == [] {
    } else {
      MergeAllIsSound(files, parse, indexes[..|indexes| - 1]);
      MergeIsSound(files, parse, MergeAll(indexes[..|indexes| - 1]), indexes[|indexes| - 1]);
    }
  }

  // ----- The order of the workers

  ghost predicate Agree<V(!new)>(a: map<Callable, V>, b: map<Callable, V>) {
    forall c :: c in a && c in b ==> a[c] == b[c]
  }

  function OverlayAll<V>(ms: seq<map<Callable, V>>): map<Callable, V> {
    if ms == [] then map[] else Overlay(OverlayAll(ms[..|ms| - 1]), ms[|ms| - 1])
  }

  /** Every entry comes from a member, and no callable of a member is lost. */
  lemma {:induction false} OverlayAllEntry<V>(ms: seq<map<Callable, V>>, c: Callable)
    ensures c in OverlayAll(ms) <==> exists m :: m in ms && c in m
    ensures c in OverlayAll(ms) ==> exists m :: m in ms && c in m && m[c] == OverlayAll(ms)[c]
  {
    if ms == [] {
    } else {
      OverlayAllEntry(ms[..|ms| - 1], c);
      assert ms == ms[..|ms| - 1] + [ms[|ms| - 1]];
    }
  }

  lemma {:induction false} OverlayAllIgnoresOrder<V(!new)>(ms: seq<map<Callable, V>>, ns: seq<map<Callable, V>>)
    requires forall m :: m in ms <==> m in ns
    requires forall m, n :: m in ms && n in ms ==> Agree(m, n)
    ensures OverlayAll(ms) == OverlayAll(ns)
  {
    forall c
      ensures c in OverlayAll(ms) <==> c in OverlayAll(ns)
      ensures c in OverlayAll(ms) ==> OverlayAll(ms)[c] == OverlayAll(ns)[c]
    {
      OverlayAllEntry(ms, c);
      OverlayAllEntry(ns, c);
    }
  }

  function Models(i: Index): map<Callable, FilePosition> { i.models }
  function Issues(i: Index): map<Callable, seq<FilePosition>> { i.issues }
  function CallGraphs(i: Index): map<Callable, FilePosition> { i.callGraphs }
  function HigherOrderCallGraphs(i: Index): map<Callable, FilePosition> { i.higherOrderCallGraphs }

  function Each<V>(get: Index -> map<Callable, V>, indexes: seq<Index>): (r: seq<map<Callable, V>>)
    ensures |r| == |indexes| && forall i :: 0 <= i < |indexes| ==> r[i] == get(indexes[i])
  {
    seq(|indexes|, i requires 0 <= i < |indexes| => get(indexes[i]))
  }

  /** No callable has different entries in two of the indexes. */
  ghost predicate AllAgree<V(!new)>(get: Index -> map<Callable, V>, indexes: seq<Index>) {
    forall i, j :: i in indexes && j in indexes ==> Agree(get(i), get(j))
  }

  /** Merging indexes is merging each dictionary on its own. */
  lemma {:induction false} MergeAllByDictionary(indexes: seq<Index>)
    ensures MergeAll(indexes) == Index(OverlayAll(Each(Models, indexes)), OverlayAll(Each(Issues, indexes)),
                                       OverlayAll(Each(CallGraphs, indexes)),
                                       OverlayAll(Each(HigherOrderCallGraphs, indexes)))
  {
    if indexes == [] {
    } else {
      var n := |indexes| - 1;
      MergeAllByDictionary(indexes[..n]);
      assert Each(Models, indexes)[..n] == Each(Models, indexes[..n]);
      assert Each(Issues, indexes)[..n] == Each(Issues, indexes[..n]);
      assert Each(CallGraphs, indexes)[..n] == Each(CallGraphs, indexes[..n]);
      assert Each(HigherOrderCallGraphs, indexes)[..n] == Each(HigherOrderCallGraphs, indexes[..n]);
    }
  }

  lemma {:induction false} EachIgnoresOrder<V(!new)>(get: Index -> map<Callable, V>, a: seq<Index>, b: seq<Index>)
    requires forall i :: i in a <==> i in b
    requires AllAgree(get, a)
    ensures OverlayAll(Each(get, a)) == OverlayAll(Each(get, b))
  {
    forall m ensures m in Each(get, a) <==> m in Each(get, b) {
      assert m in Each(get, a) <==> exists i :: i in a && m == get(i);
      assert m in Each(get, b) <==> exists i :: i in b && m == get(i);
    }
    OverlayAllIgnoresOrder(Each(get, a), Each(get, b));
  }

  /** If no two indexes disagree about a callable, the order in which they arrive does not matter. */
  lemma {:induction false} MergeAllIgnoresOrder(a: seq<Index>, b: seq<Index>)
    requires forall i :: i in a <==> i in b
    requires AllAgree(Models, a) && AllAgree(Issues, a) && AllAgree(CallGraphs, a) && AllAgree(HigherOrderCallGraphs, a)
    ensures MergeAll(a) == MergeAll(b)
  {
    MergeAllByDictionary(a);
    MergeAllByDictionary(b);
    EachIgnoresOrder(Models, a, b);
    EachIgnoresOrder(Issues, a, b);
    EachIgnoresOrder(CallGraphs, a, b);
    EachIgnoresOrder(HigherOrderCallGraphs, a, b);
  }

  // ----- One file indexed from scratch misses nothing

  /** Positions of the first `n` lines with this kind and callable, in order. */
  function Positions(parse: Parser, file: nat, lines: seq<Bytes>, n: nat, kind: Kind, c: Callable): seq<FilePosition>
    requires n <= |lines|
  {
    if n == 0 then []
    else
      var before := Positions(parse, file, lines, n - 1, kind, c);
      if parse(lines[n - 1]) == Entry(kind, Some(c)) then before + [PositionOf(file, lines, n - 1)] else before
  }

  ghost function AllPositions(file: nat, lines: seq<Bytes>, n: nat): (r: seq<FilePosition>)
    requires n <= |lines|
    ensures |r| == n && forall i :: 0 <= i < n ==> r[i] == PositionOf(file, lines, i)
  {
    seq(n, i requires 0 <= i < n => PositionOf(file, lines, i))
  }

  /** Exactly the positions of the lines with this kind and callable, in order. */
  lemma {:induction false} PositionsAre(parse: Parser, file: nat, lines: seq<Bytes>, n: nat, kind: Kind, c: Callable,
                                        marked: nat -> bool)
    returns (indices: seq<nat>)
    requires n <= |lines| && forall i :: 0 <= i < |lines| ==> marked(i) == (parse(lines[i]) == Entry(kind, Some(c)))
    ensures IsSelection(Positions(parse, file, lines, n, kind, c), indices, marked, AllPositions(file, lines, n))
  {
    var items := AllPositions(file, lines, n);
    var results := seq(n + 1, k requires 0 <= k <= n => Positions(parse, file, lines, k, kind, c));
    forall k | 0 <= k < n ensures results[k + 1] == results[k] + if marked(k) then [items[k]] else [] {
      NextPosition(parse, file, lines, k, kind, c);
    }
    indices := SelectStepwise(results, marked, items, n);
    assert items[..n] == items;
  }

  lemma {:induction false} NextPosition(parse: Parser, file: nat, lines: seq<Bytes>, n: nat, kind: Kind, c: Callable)
    requires n < |lines|
    ensures Positions(parse, file, lines, n + 1, kind, c)
            == Positions(parse, file, lines, n, kind, c)
               + if parse(lines[n]) == Entry(kind, Some(c)) then [PositionOf(file, lines, n)] else []
  {
  }

  /** A dictionary that keeps the last position per callable. */
  ghost predicate KeepsLast(m: map<Callable, FilePosition>, parse: Parser, file: nat, lines: seq<Bytes>,
                            n: nat, kind: Kind)
    requires n <= |lines|
  {
    forall c :: var ps := Positions(parse, file, lines, n, kind, c);
                (c in m <==> ps != []) && (c in m ==> m[c] == ps[|ps| - 1])
  }

  /** The issue dictionary keeps every position, in order. */
  ghost predicate KeepsAll(issues: map<Callable, seq<FilePosition>>, parse: Parser, file: nat,
                           lines: seq<Bytes>, n: nat)
    requires n <= |lines|
  {
    forall c :: IssuesAt(issues, c) == Positions(parse, file, lines, n, IssueKind, c)
  }

  ghost predicate AtMostOneModel(parse: Parser, file: nat, lines: seq<Bytes>, n: nat)
    requires n <= |lines|
  {
    forall c :: |Positions(parse, file, lines, n, ModelKind, c)| <= 1
  }

  ghost predicate Complete(idx: Index, parse: Parser, file: nat, lines: seq<Bytes>, n: nat)
    requires n <= |lines|
  {
    && KeepsLast(idx.models, parse, file, lines, n, ModelKind)
    && KeepsLast(idx.callGraphs, parse, file, lines, n, CallGraphKind)
    && KeepsLast(idx.higherOrderCallGraphs, parse, file, lines, n, HigherOrderCallGraphKind)
    && KeepsAll(idx.issues, parse, file, lines, n)
  }

  /** No two of the first `n` lines are models of the same callable. */
  ghost predicate ModelsAreUnique(parse: Parser, lines: seq<Bytes>, n: nat)
    requires n <= |lines|
  {
    forall i, j :: 0 <= i < j < n && Names(parse(lines[i]), ModelKind) ==> parse(lines[i]) != parse(lines[j])
  }

  lemma UniqueModels(parse: Parser, file: nat, lines: seq<Bytes>, n: nat)
    requires n <= |lines|
    ensures AtMostOneModel(parse, file, lines, n) <==> ModelsAreUnique(parse, lines, n)
  {
    if AtMostOneModel(parse, file, lines, n) {
      forall i, j | 0 <= i < j < n && Names(parse(lines[i]), ModelKind) ensures parse(lines[i]) != parse(lines[j]) {
        var c := parse(lines[i]).callable.value;
        var indices := ModelIndices(parse, file, lines, n, c);
        assert |indices| <= 1 && i in indices;
        assert parse(lines[j]) == parse(lines[i]) ==> j in indices;
      }
    } else {
      var c :| |Positions(parse, file, lines, n, ModelKind, c)| > 1;
      var indices := ModelIndices(parse, file, lines, n, c);
      var i, j := indices[0], indices[1];
      assert i in indices && j in indices;
      assert Names(parse(lines[i]), ModelKind) && parse(lines[i]) == parse(lines[j]);
    }
  }

  lemma ModelIndices(parse: Parser, file: nat, lines: seq<Bytes>, n: nat, c: Callable) returns (indices: seq<nat>)
    requires n <= |lines|
    ensures AreIndices(indices, n) && |indices| == |Positions(parse, file, lines, n, ModelKind, c)|
    ensures forall i :: 0 <= i < n ==> (i in indices <==> parse(lines[i]) == Entry(ModelKind, Some(c)))
  {
    indices := PositionsAre(parse, file, lines, n, ModelKind, c,
                            i => 0 <= i < |lines| && parse(lines[i]) == Entry(ModelKind, Some(c)));
  }

  lemma PositionsGrow(parse: Parser, file: nat, lines: seq<Bytes>, n: nat)
    requires n < |lines| && AtMostOneModel(parse, file, lines, n + 1)
    ensures AtMostOneModel(parse, file, lines, n)
  {
    forall c ensures |Positions(parse, file, lines, n, ModelKind, c)| <= 1 {
      assert |Positions(parse, file, lines, n + 1, ModelKind, c)| <= 1;
    }
  }

  /** From empty dictionaries, indexing succeeds exactly when no line is bad and no callable has
      two models; then every message is found, issues in order and call graphs by the last one. */
  lemma {:induction false} IndexingIsComplete(parse: Parser, file: nat, lines: seq<Bytes>, n: nat)
    requires n <= |lines|
    ensures IndexLines(parse, file, lines, n, EMPTY).Some? <==>
              (forall i :: 0 <= i < n ==> IsIndexable(parse(lines[i]))) && ModelsAreUnique(parse, lines, n)
    ensures IndexLines(parse, file, lines, n, EMPTY).Some? ==>
              Complete(IndexLines(parse, file, lines, n, EMPTY).value, parse, file, lines, n)
  {
    UniqueModels(parse, file, lines, n);
    if n == 0 {
    } else {
      UniqueModels(parse, file, lines, n - 1);
      IndexingIsComplete(parse, file, lines, n - 1);
      var before := IndexLines(parse, file, lines, n - 1, EMPTY);
      if before.Some? {
        RecordSucceedsWhen(before.value, parse, file, lines, n - 1);
        RecordIsComplete(before.value, parse, file, lines, n - 1);
      } else if AtMostOneModel(parse, file, lines, n) {
        PositionsGrow(parse, file, lines, n - 1);
      }
    }
  }

  lemma RecordSucceedsWhen(idx: Index, parse: Parser, file: nat, lines: seq<Bytes>, n: nat)
    requires n < |lines| && Complete(idx, parse, file, lines, n) && AtMostOneModel(parse, file, lines, n)
    ensures Record(idx, parse(lines[n]), PositionOf(file, lines, n)).Some? <==>
              !Bad(parse(lines[n])) && AtMostOneModel(parse, file, lines, n + 1)
  {
    var m := parse(lines[n]);
    forall c ensures Positions(parse, file, lines, n + 1, ModelKind, c)
                  == Positions(parse, file, lines, n, ModelKind, c)
                     + if m == Entry(ModelKind, Some(c)) then [PositionOf(file, lines, n)] else [] {
    }
    if m.Entry? && m.kind.ModelKind? && m.callable.Some? && m.callable.value in idx.models {
      assert |Positions(parse, file, lines, n + 1, ModelKind, m.callable.value)| > 1;
    }
  }

  lemma RecordIsComplete(idx: Index, parse: Parser, file: nat, lines: seq<Bytes>, n: nat)
    requires n < |lines| && Complete(idx, parse, file, lines, n)
    ensures var r := Record(idx, parse(lines[n]), PositionOf(file, lines, n));
            r.Some? ==> Complete(r.value, parse, file, lines, n + 1)
  {
    LastAfter(idx.models, parse, file, lines, n, ModelKind);
    LastAfter(idx.callGraphs, parse, file, lines, n, CallGraphKind);
    LastAfter(idx.higherOrderCallGraphs, parse, file, lines, n, HigherOrderCallGraphKind);
    AllAfter(idx.issues, parse, file, lines, n);
  }

  lemma LastAfter(m: map<Callable, FilePosition>, parse: Parser, file: nat, lines: seq<Bytes>, n: nat, kind: Kind)
    requires n < |lines| && KeepsLast(m, parse, file, lines, n, kind)
    ensures KeepsLast(RecordLast(m, kind, parse(lines[n]), PositionOf(file, lines, n)), parse, file, lines, n + 1, kind)
  {
  }

  lemma AllAfter(issues: map<Callable, seq<FilePosition>>, parse: Parser, file: nat, lines: seq<Bytes>, n: nat)
    requires n < |lines| && KeepsAll(issues, parse, file, lines, n)
    ensures KeepsAll(RecordAll(issues, parse(lines[n]), PositionOf(file, lines, n)), parse, file, lines, n + 1)
  {
    var issues' := RecordAll(issues, parse(lines[n]), PositionOf(file, lines, n));
    forall c ensures IssuesAt(issues', c) == Positions(parse, file, lines, n + 1, IssueKind, c) {
      assert IssuesAt(issues, c) == Positions(parse, file, lines, n, IssueKind, c);
    }
  }
}

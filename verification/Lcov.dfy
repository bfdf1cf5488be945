/**
 Merging lcov exports (ci/merge_coverage.py): reading the records of an export, merging the exports
 of the binaries and of the unit test build, and writing the merged report.
 */
module Lcov {

  import opened Prelude
  import opened Decimal
  import Text

  type Lines = map<int, int>
  type Files = map<string, Lines>

  // ----- Reading

  /** `lines` in the source is None or one of the dictionaries in `files`. */
  datatype Reader = Reader(files: Files, current: Option<string>)

  function Get(m: Lines, n: int): int {
    if n in m then m[n] else 0
  }

  function LinesOf(f: Files, source: string): Lines {
    if source in f then f[source] else map[]
  }

  function After(s: string, c: char): Option<string> {
    var n := |Text.Piece(s, c)|;
    if n == |s| then None else Some(s[n + 1..])
  }

  /** rstrip("\n"): a record has at most one newline, at its end. */
  function Chomp(s: string): string {
    if s != [] && s[|s| - 1] == '\n' then s[..|s| - 1] else s
  }

  /** The number and the count of a DA record; further fields are ignored. */
  function ParseCount(fields: string): Option<(int, int)> {
    var rest := After(fields, ',');
    if rest.None? then None else
    var number, count := Parse(Text.Piece(fields, ',')), Parse(Text.Piece(rest.value, ','));
    if number.None? || count.None? then None else Some((number.value, count.value))
  }

  function CountLine(r: Reader, parsed: Option<(int, int)>): Option<Reader> {
    if parsed.None? || r.current.None? || r.current.value !in r.files then None else
    var (number, count) := parsed.value;
    var lines := r.files[r.current.value];
    Some(r.(files := r.files[r.current.value := lines[number := Get(lines, number) + count]]))
  }

  /** One record; None where the script stops with an exception. */
  function Step(r: Reader, record: string): Option<Reader> {
    if "SF:" <= record then
      var source := Chomp(record[3..]);
      Some(Reader(r.files[source := LinesOf(r.files, source)], Some(source)))
    else if "DA:" <= record then
      CountLine(r, ParseCount(record[3..]))
    else if "end_of_record" <= record then Some(r.(current := None))
    else Some(r)
  }

  function ReadFrom(r: Reader, records: seq<string>): Option<Reader>
    decreases |records|
  {
    if records == [] then Some(r) else
    var next := Step(r, records[0]);
    if next.None? then None else ReadFrom(next.value, records[1..])
  }

  function Read(records: seq<string>): Option<Files> {
    var r := ReadFrom(Reader(map[], None), records);
    if r.None? then None else Some(r.value.files)
  }

  lemma {:induction false} ReadAppend(r: Reader, a: seq<string>, b: seq<string>)
    ensures ReadFrom(r, a + b) ==
            if ReadFrom(r, a).None? then None else ReadFrom(ReadFrom(r, a).value, b)
    decreases |a|
  {
    if a == [] {
      assert a + b == b;
    } else {
      assert (a + b)[1..] == a[1..] + b;
      if Step(r, a[0]).Some? {
        ReadAppend(Step(r, a[0]).value, a[1..], b);
      }
    }
  }

  lemma ReadOne(r: Reader, record: string)
    ensures ReadFrom(r, [record]) == Step(r, record)
  {
    assert [record][1..] == [];
  }

  lemma ReadNext(start: Reader, records: seq<string>, i: nat, r: Reader)
    requires i < |records| && ReadFrom(start, records[..i]) == Some(r)
    ensures ReadFrom(start, records[..i + 1]) == Step(r, records[i])
    ensures Step(r, records[i]).None? ==> ReadFrom(start, records).None?
  {
    ReadAppend(start, records[..i], [records[i]]);
    ReadOne(r, records[i]);
    assert records[..i + 1] == records[..i] + [records[i]];
    ReadAppend(start, records[..i + 1], records[i + 1..]);
    assert records[..i + 1] + records[i + 1..] == records;
  }

  lemma Unchanged(files: Files, source: string)
    ensures source in files ==> files[source := files[source]] == files
  {
  }

  method AddCount(files: Files, lines: Option<string>, fields: string) returns (result: Option<Files>)
    ensures var next := CountLine(Reader(files, lines), ParseCount(fields));
            result == (if next.None? then None else Some(next.value.files)) && (next.Some? ==> next.value.current == lines)
  {
    var parsed := ParseCount(fields);
    if parsed.None? || lines.None? || lines.value !in files {
      return None;
    }
    var known := files[lines.value];
    var number, count := parsed.value.0, parsed.value.1;
    return Some(files[lines.value := known[number := Get(known, number) + count]]);
  }

  method ReadLcov(records: seq<string>) returns (result: Option<Files>)
    ensures result == Read(records)
  {
    var files: Files, lines: Option<string> := map[], None;
    ghost var start := Reader(map[], None);
    for i := 0 to |records|
      invariant ReadFrom(start, records[..i]) == Some(Reader(files, lines))
    {
      var record := records[i];
      ReadNext(start, records, i, Reader(files, lines));
      if "SF:" <= record {
        var source := Chomp(record[3..]);
        Unchanged(files, source);
        if source !in files {
          files := files[source := map[]];
        }
        lines := Some(source);
      } else if "DA:" <= record {
        var counted := AddCount(files, lines, record[3..]);
        if counted.None? {
          return None;
        }
        files := counted.value;
      } else if "end_of_record" <= record {
        lines := None;
      }
    }
    assert records[..|records|] == records;
    return Some(files);
  }

  // ----- What has been read

  /** The source that DA records after these records belong to. */
  function Current(records: seq<string>): Option<string> {
    if records == [] then None else
    var n := |records| - 1;
    if "SF:" <= records[n] then Some(Chomp(records[n][3..]))
    else if "end_of_record" <= records[n] then None
    else Current(records[..n])
  }

  /** What a record says about a line of a source: the count, if it is a DA record under the source. */
  function CountOf(current: Option<string>, record: string, source: string, number: int): Option<int> {
    if !("DA:" <= record) || current != Some(source) then None else
    var parsed := ParseCount(record[3..]);
    if parsed.Some? && parsed.value.0 == number then Some(parsed.value.1) else None
  }

  function OrZero(count: Option<int>): int {
    if count.Some? then count.value else 0
  }

  /** The sum of the counts among the first `k` records. */
  function SumTo(records: seq<string>, k: nat, source: string, number: int): int
    requires k <= |records|
  {
    if k == 0 then 0 else
    SumTo(records, k - 1, source, number) + OrZero(CountAt(records, k - 1, source, number))
  }

  function CountAt(records: seq<string>, i: nat, source: string, number: int): Option<int>
    requires i < |records|
  {
    CountOf(Current(records[..i]), records[i], source, number)
  }

  /** A DA record the script can take: it is well-formed and belongs to a source. */
  predicate Takes(records: seq<string>, i: nat)
    requires i < |records|
  {
    "DA:" <= records[i] ==> ParseCount(records[i][3..]).Some? && Current(records[..i]).Some?
  }

  predicate TakesTo(records: seq<string>, k: nat)
    requires k <= |records|
  {
    k == 0 || (TakesTo(records, k - 1) && Takes(records, k - 1))
  }

  lemma {:induction false} TakesAll(records: seq<string>, k: nat)
    requires k <= |records|
    ensures TakesTo(records, k) <==> forall i | 0 <= i < k :: Takes(records, i)
  {
    if k > 0 {
      TakesAll(records, k - 1);
    }
  }

  ghost predicate NamesAre(f: Files, records: seq<string>, k: nat)
    requires k <= |records|
  {
    forall s :: s in f <==> exists i | 0 <= i < k :: "SF:" <= records[i] && Chomp(records[i][3..]) == s
  }

  ghost predicate LineIs(f: Files, records: seq<string>, k: nat, s: string, n: int)
    requires k <= |records|
  {
    && (Has(f, s, n) <==> exists i | 0 <= i < k :: CountAt(records, i, s, n).Some?)
    && CountIn(f, s, n) == SumTo(records, k, s, n)
  }

  const START := Reader(map[], None)

  ghost predicate CurrentFits(r: Reader, current: Option<string>) {
    r.current == current && (current.Some? ==> current.value in r.files)
  }

  lemma StepCurrent(r: Reader, record: string)
    requires Step(r, record).Some? && CurrentFits(r, r.current)
    ensures CurrentFits(Step(r, record).value,
                        if "SF:" <= record then Some(Chomp(record[3..]))
                        else if "end_of_record" <= record then None else r.current)
  {
    Prefixes(record);
  }

  lemma {:induction false} CurrentIs(records: seq<string>, k: nat)
    requires k <= |records|
    ensures ReadFrom(START, records[..k]).Some? ==>
              CurrentFits(ReadFrom(START, records[..k]).value, Current(records[..k]))
  {
    if k > 0 {
      CurrentIs(records, k - 1);
      ReadMore(records, k - 1);
      assert records[..k][..k - 1] == records[..k - 1];
      if ReadFrom(START, records[..k]).Some? {
        StepCurrent(ReadFrom(START, records[..k - 1]).value, records[k - 1]);
      }
    }
  }

  lemma ReadMore(records: seq<string>, k: nat)
    requires k < |records|
    ensures var r := ReadFrom(START, records[..k]);
            ReadFrom(START, records[..k + 1]) == if r.None? then None else Step(r.value, records[k])
  {
    ReadAppend(START, records[..k], [records[k]]);
    assert records[..k + 1] == records[..k] + [records[k]];
    if ReadFrom(START, records[..k]).Some? {
      ReadOne(ReadFrom(START, records[..k]).value, records[k]);
    }
  }

  lemma {:induction false} NamesRead(records: seq<string>, k: nat)
    requires k <= |records|
    ensures ReadFrom(START, records[..k]).Some? ==> NamesAre(ReadFrom(START, records[..k]).value.files, records, k)
  {
    if k > 0 {
      NamesRead(records, k - 1);
      ReadMore(records, k - 1);
    }
  }

  lemma Prefixes(record: string)
    ensures "DA:" <= record ==> !("SF:" <= record) && !("end_of_record" <= record)
  {
    if "DA:" <= record {
      assert record[0] == 'D';
    }
  }

  lemma CountLineAdds(r: Reader, parsed: Option<(int, int)>, s: string, n: int)
    requires CountLine(r, parsed).Some?
    ensures var next := CountLine(r, parsed).value.files;
            var here := r.current == Some(s) && parsed.value.0 == n;
            && (Has(next, s, n) <==> Has(r.files, s, n) || here)
            && CountIn(next, s, n) == CountIn(r.files, s, n) + if here then parsed.value.1 else 0
  {
  }

  lemma StepLine(r: Reader, record: string, s: string, n: int)
    requires Step(r, record).Some?
    ensures var next, count := Step(r, record).value.files, CountOf(r.current, record, s, n);
            && (Has(next, s, n) <==> Has(r.files, s, n) || count.Some?)
            && CountIn(next, s, n) == CountIn(r.files, s, n) + OrZero(count)
  {
    Prefixes(record);
    if "DA:" <= record {
      CountLineAdds(r, ParseCount(record[3..]), s, n);
    }
  }

  lemma OneMoreLine(before: Files, after: Files, records: seq<string>, k: nat, s: string, n: int)
    requires k < |records| && LineIs(before, records, k, s, n)
    requires Has(after, s, n) <==> Has(before, s, n) || CountAt(records, k, s, n).Some?
    requires CountIn(after, s, n) == CountIn(before, s, n) + OrZero(CountAt(records, k, s, n))
    ensures LineIs(after, records, k + 1, s, n)
  {
  }

  lemma {:induction false} LinesRead(records: seq<string>, k: nat, s: string, n: int)
    requires k <= |records| && ReadFrom(START, records[..k]).Some?
    ensures LineIs(ReadFrom(START, records[..k]).value.files, records, k, s, n)
  {
    if k > 0 {
      ReadMore(records, k - 1);
      LinesRead(records, k - 1, s, n);
      CurrentIs(records, k - 1);
      var r := ReadFrom(START, records[..k - 1]).value;
      StepLine(r, records[k - 1], s, n);
      OneMoreLine(r.files, Step(r, records[k - 1]).value.files, records, k - 1, s, n);
    }
  }

  lemma StepTakes(r: Reader, record: string)
    requires CurrentFits(r, r.current)
    ensures Step(r, record).Some? <==> ("DA:" <= record ==> ParseCount(record[3..]).Some? && r.current.Some?)
  {
    Prefixes(record);
  }

  lemma {:induction false} ReadsExactlyWhen(records: seq<string>, k: nat)
    requires k <= |records|
    ensures ReadFrom(START, records[..k]).Some? <==> TakesTo(records, k)
  {
    if k > 0 {
      ReadsExactlyWhen(records, k - 1);
      ReadMore(records, k - 1);
      CurrentIs(records, k - 1);
      var r := ReadFrom(START, records[..k - 1]);
      if r.Some? {
        StepTakes(r.value, records[k - 1]);
      }
    }
  }

  /** An export is read exactly if the script can take its DA records. The result names the sources
      of the SF records; it has a line of a source if a DA record under that source has the number,
      with the sum of the counts of all of these. */
  lemma ReadExactly(records: seq<string>, s: string, n: int)
    ensures Read(records).Some? <==> forall i | 0 <= i < |records| :: Takes(records, i)
    ensures Read(records).Some? ==>
              var f := Read(records).value;
              && (s in f <==> exists i | 0 <= i < |records| :: "SF:" <= records[i] && Chomp(records[i][3..]) == s)
              && (Has(f, s, n) <==> exists i | 0 <= i < |records| :: CountAt(records, i, s, n).Some?)
              && CountIn(f, s, n) == SumTo(records, |records|, s, n)
  {
    assert records[..|records|] == records;
    TakesAll(records, |records|);
    ReadsExactlyWhen(records, |records|);
    NamesRead(records, |records|);
    if Read(records).Some? {
      LinesRead(records, |records|, s, n);
    }
  }

  // ----- Merging

  function AddLines(a: Lines, b: Lines): Lines {
    map n | n in a.Keys + b.Keys :: Get(a, n) + Get(b, n)
  }

  function AddFiles(m: Files, f: Files): Files {
    map s | s in m.Keys + f.Keys :: AddLines(LinesOf(m, s), LinesOf(f, s))
  }

  /** Counts of the unit test build are added to lines that are there already. */
  function AddKnown(known: Lines, lines: Lines): Lines {
    map n | n in known :: known[n] + Get(lines, n)
  }

  function AddTests(m: Files, f: Files): Files {
    map s | s in m :: AddKnown(m[s], LinesOf(f, s))
  }

  function MergeExports(exports: seq<Files>): Files {
    if exports == [] then map[] else AddFiles(MergeExports(exports[..|exports| - 1]), exports[|exports| - 1])
  }

  function Merged(exports: seq<Files>, tests: seq<Files>): Files {
    if tests == [] then MergeExports(exports)
    else AddTests(Merged(exports, tests[..|tests| - 1]), tests[|tests| - 1])
  }

  /** A dictionary restricted to the keys that have been visited. */
  function Visited<K, V>(m: map<K, V>, left: set<K>): map<K, V> {
    map k | k in m && k !in left :: m[k]
  }

  /** Whichever entry comes next. */
  method Any<T>(left: set<T>) returns (x: T)
    requires left != {}
    ensures x in left
  {
    x :| x in left;
  }

  lemma AddOneLine(a: Lines, b: Lines, left: set<int>, n: int)
    requires n in left && left <= b.Keys
    ensures var known := AddLines(a, Visited(b, left));
            AddLines(a, Visited(b, left - {n})) == known[n := Get(known, n) + b[n]]
  {
  }

  method AddLinesLoop(a: Lines, b: Lines) returns (known: Lines)
    ensures known == AddLines(a, b)
  {
    known := a;
    var left := b.Keys;
    assert AddLines(a, Visited(b, left)) == a;
    while left != {}
      invariant left <= b.Keys && known == AddLines(a, Visited(b, left))
      decreases |left|
    {
      var n := Any(left);
      AddOneLine(a, b, left, n);
      known := known[n := Get(known, n) + b[n]];
      left := left - {n};
    }
    assert Visited(b, {}) == b;
  }

  method AddKnownLoop(a: Lines, b: Lines) returns (known: Lines)
    ensures known == AddKnown(a, b)
  {
    known := a;
    var left := b.Keys;
    while left != {}
      invariant left <= b.Keys && known == AddKnown(a, Visited(b, left))
      decreases |left|
    {
      var n := Any(left);
      if n in known {
        known := known[n := known[n] + b[n]];
      }
      left := left - {n};
    }
    assert Visited(b, {}) == b;
  }

  lemma AddNothing(a: Lines)
    ensures AddLines(a, map[]) == a
  {
  }

  lemma AddNoFiles(m: Files)
    ensures AddFiles(m, map[]) == m
  {
    forall s | s in m ensures AddFiles(m, map[])[s] == m[s] {
      AddNothing(m[s]);
    }
  }

  lemma VisitOne<K, V>(f: map<K, V>, left: set<K>, s: K)
    requires s in left && left <= f.Keys
    ensures s !in Visited(f, left) && Visited(f, left - {s}) == Visited(f, left)[s := f[s]]
  {
  }

  lemma OtherFile(m: Files, seen: Files, s: string, lines: Lines, x: string)
    requires x in m.Keys + seen.Keys && x != s
    ensures AddFiles(m, seen[s := lines])[x] == AddFiles(m, seen)[x]
  {
    assert LinesOf(seen[s := lines], x) == LinesOf(seen, x);
  }

  lemma ThisFile(m: Files, seen: Files, s: string, lines: Lines)
    requires s !in seen
    ensures AddFiles(m, seen[s := lines])[s] == AddLines(LinesOf(AddFiles(m, seen), s), lines)
  {
    AddNothing(LinesOf(m, s));
    assert LinesOf(seen, s) == map[];
    assert LinesOf(AddFiles(m, seen), s) == LinesOf(m, s);
  }

  lemma SameMap<K, V>(a: map<K, V>, b: map<K, V>)
    requires a.Keys == b.Keys && forall k | k in a :: a[k] == b[k]
    ensures a == b
  {
  }

  lemma AddedKeys(m: Files, seen: Files, s: string, lines: Lines, known: Lines)
    ensures AddFiles(m, seen[s := lines]).Keys == AddFiles(m, seen)[s := known].Keys == m.Keys + seen.Keys + {s}
  {
  }

  lemma AddOneFile(m: Files, seen: Files, s: string, lines: Lines, known: Lines)
    requires s !in seen && known == AddLines(LinesOf(AddFiles(m, seen), s), lines)
    ensures AddFiles(m, seen[s := lines]) == AddFiles(m, seen)[s := known]
  {
    var after, want := AddFiles(m, seen[s := lines]), AddFiles(m, seen)[s := known];
    AddedKeys(m, seen, s, lines, known);
    forall x | x in after ensures after[x] == want[x] {
      if x == s {
        ThisFile(m, seen, s, lines);
      } else {
        OtherFile(m, seen, s, lines, x);
      }
    }
    SameMap(after, want);
  }

  method AddFilesLoop(m: Files, f: Files) returns (merged: Files)
    ensures merged == AddFiles(m, f)
  {
    merged := m;
    var left := f.Keys;
    AddNoFiles(m);
    assert Visited(f, left) == map[];
    while left != {}
      invariant left <= f.Keys && merged == AddFiles(m, Visited(f, left))
      decreases |left|
    {
      var s := Any(left);
      var known := AddLinesLoop(LinesOf(merged, s), f[s]);
      VisitOne(f, left, s);
      AddOneFile(m, Visited(f, left), s, f[s], known);
      merged := merged[s := known];
      left := left - {s};
    }
    assert Visited(f, {}) == f;
  }

  lemma AddOneTest(m: Files, f: Files, left: set<string>, s: string)
    requires s in left && left <= f.Keys
    ensures var merged := AddTests(m, Visited(f, left));
            AddTests(m, Visited(f, left - {s})) ==
            if s in merged then merged[s := AddKnown(merged[s], f[s])] else merged
  {
    var before, after := Visited(f, left), Visited(f, left - {s});
    if s in m {
      assert AddKnown(m[s], map[]) == m[s];
    }
    forall x | x in m && x != s ensures LinesOf(after, x) == LinesOf(before, x) {
    }
  }

  lemma AddNoTests(m: Files)
    ensures AddTests(m, map[]) == m
  {
    forall s | s in m ensures AddTests(m, map[])[s] == m[s] {
      assert AddKnown(m[s], map[]) == m[s];
    }
  }

  method AddTestsLoop(m: Files, f: Files) returns (merged: Files)
    ensures merged == AddTests(m, f)
  {
    merged := m;
    var left := f.Keys;
    AddNoTests(m);
    assert Visited(f, left) == map[];
    while left != {}
      invariant left <= f.Keys && merged == AddTests(m, Visited(f, left))
      decreases |left|
    {
      var s := Any(left);
      AddOneTest(m, f, left, s);
      if s in merged {
        var known := AddKnownLoop(merged[s], f[s]);
        merged := merged[s := known];
      }
      left := left - {s};
    }
    assert Visited(f, {}) == f;
  }

  method Merge(exports: seq<Files>, tests: seq<Files>) returns (merged: Files)
    ensures merged == Merged(exports, tests)
  {
    merged := map[];
    for i := 0 to |exports|
      invariant merged == MergeExports(exports[..i])
    {
      assert exports[..i + 1][..i] == exports[..i];
      merged := AddFilesLoop(merged, exports[i]);
    }
    assert exports[..|exports|] == exports;
    for i := 0 to |tests|
      invariant merged == Merged(exports, tests[..i])
    {
      assert tests[..i + 1][..i] == tests[..i];
      merged := AddTestsLoop(merged, tests[i]);
    }
    assert tests[..|tests|] == tests;
  }

  // ----- What the merged report holds

  predicate Has(f: Files, s: string, n: int) {
    s in f && n in f[s]
  }

  function CountIn(f: Files, s: string, n: int): int {
    Get(LinesOf(f, s), n)
  }

  /** The sum of the counts of a line. */
  function Total(fs: seq<Files>, s: string, n: int): int {
    if fs == [] then 0 else Total(fs[..|fs| - 1], s, n) + CountIn(fs[|fs| - 1], s, n)
  }

  predicate SomeHas(fs: seq<Files>, s: string, n: int) {
    exists i | 0 <= i < |fs| :: Has(fs[i], s, n)
  }

  predicate SomeNames(fs: seq<Files>, s: string) {
    exists i | 0 <= i < |fs| :: s in fs[i]
  }

  lemma LastOrEarlier(fs: seq<Files>, s: string, n: int)
    requires fs != []
    ensures var k := |fs| - 1;
            && (SomeHas(fs, s, n) <==> SomeHas(fs[..k], s, n) || Has(fs[k], s, n))
            && (SomeNames(fs, s) <==> SomeNames(fs[..k], s) || s in fs[k])
  {
    var k := |fs| - 1;
    assert forall i | 0 <= i < k :: fs[..k][i] == fs[i];
  }

  lemma {:induction false} ExportsExactly(exports: seq<Files>, s: string, n: int)
    ensures s in MergeExports(exports) <==> SomeNames(exports, s)
    ensures Has(MergeExports(exports), s, n) <==> SomeHas(exports, s, n)
    ensures CountIn(MergeExports(exports), s, n) == Total(exports, s, n)
  {
    if exports != [] {
      var k := |exports| - 1;
      ExportsExactly(exports[..k], s, n);
      LastOrEarlier(exports, s, n);
    }
  }

  /** The report has exactly the lines some export of a build without tests has, and counts each as
      often as all exports together. */
  lemma {:induction false} MergedExactly(exports: seq<Files>, tests: seq<Files>, s: string, n: int)
    ensures s in Merged(exports, tests) <==> SomeNames(exports, s)
    ensures Has(Merged(exports, tests), s, n) <==> SomeHas(exports, s, n)
    ensures Has(Merged(exports, tests), s, n) ==>
            Merged(exports, tests)[s][n] == Total(exports, s, n) + Total(tests, s, n)
    decreases |tests|
  {
    if tests == [] {
      ExportsExactly(exports, s, n);
    } else {
      MergedExactly(exports, tests[..|tests| - 1], s, n);
    }
  }

  lemma {:induction false} TotalWithout(fs: seq<Files>, i: nat, s: string, n: int)
    requires i < |fs|
    ensures Total(fs, s, n) == Total(fs[..i] + fs[i + 1..], s, n) + CountIn(fs[i], s, n)
    decreases |fs|
  {
    var k := |fs| - 1;
    if i == k {
      assert fs[..i] + fs[i + 1..] == fs[..k];
    } else {
      TotalWithout(fs[..k], i, s, n);
      var rest := fs[..i] + fs[i + 1..];
      assert rest[..|rest| - 1] == fs[..k][..i] + fs[..k][i + 1..];
      assert rest[|rest| - 1] == fs[k] && fs[..k][i] == fs[i];
    }
  }

  lemma WithoutLast<T>(fs: seq<T>, gs: seq<T>) returns (i: nat)
    requires fs != [] && multiset(fs) == multiset(gs)
    ensures i < |gs| && gs[i] == fs[|fs| - 1] && multiset(fs[..|fs| - 1]) == multiset(gs[..i] + gs[i + 1..])
  {
    var k := |fs| - 1;
    assert fs[k] in multiset(gs);
    i :| 0 <= i < |gs| && gs[i] == fs[k];
    assert gs == gs[..i] + [gs[i]] + gs[i + 1..];
    assert fs == fs[..k] + [fs[k]];
    assert multiset(fs[..k]) == multiset(fs) - multiset{fs[k]} == multiset(gs[..i] + gs[i + 1..]);
  }

  lemma {:induction false} TotalPermuted(fs: seq<Files>, gs: seq<Files>, s: string, n: int)
    requires multiset(fs) == multiset(gs)
    ensures Total(fs, s, n) == Total(gs, s, n)
    decreases |fs|
  {
    if fs == [] {
      assert |multiset(gs)| == 0;
    } else {
      var i := WithoutLast(fs, gs);
      TotalPermuted(fs[..|fs| - 1], gs[..i] + gs[i + 1..], s, n);
      TotalWithout(gs, i, s, n);
    }
  }

  lemma SomePermuted(fs: seq<Files>, gs: seq<Files>, s: string, n: int)
    requires multiset(fs) == multiset(gs)
    ensures SomeHas(fs, s, n) ==> SomeHas(gs, s, n)
    ensures SomeNames(fs, s) ==> SomeNames(gs, s)
  {
    forall i | 0 <= i < |fs| ensures exists j | 0 <= j < |gs| :: gs[j] == fs[i] {
      assert fs[i] in multiset(gs);
    }
  }

  lemma SameLines(exports: seq<Files>, tests: seq<Files>, exports': seq<Files>, tests': seq<Files>, s: string)
    requires multiset(exports) == multiset(exports') && multiset(tests) == multiset(tests')
    requires s in Merged(exports, tests) && s in Merged(exports', tests')
    ensures Merged(exports, tests)[s] == Merged(exports', tests')[s]
  {
    var a, b := Merged(exports, tests)[s], Merged(exports', tests')[s];
    forall n: int ensures (n in a <==> n in b) && (n in a ==> a[n] == b[n]) {
      MergedExactly(exports, tests, s, n);
      MergedExactly(exports', tests', s, n);
      SomePermuted(exports, exports', s, n);
      SomePermuted(exports', exports, s, n);
      TotalPermuted(exports, exports', s, n);
      TotalPermuted(tests, tests', s, n);
    }
  }

  /** The order of the files on the command line does not matter. */
  lemma OrderDoesNotMatter(exports: seq<Files>, tests: seq<Files>, exports': seq<Files>, tests': seq<Files>)
    requires multiset(exports) == multiset(exports') && multiset(tests) == multiset(tests')
    ensures Merged(exports, tests) == Merged(exports', tests')
  {
    var a, b := Merged(exports, tests), Merged(exports', tests');
    forall s ensures (s in a <==> s in b) && (s in a ==> a[s] == b[s]) {
      MergedExactly(exports, tests, s, 0);
      MergedExactly(exports', tests', s, 0);
      SomePermuted(exports, exports', s, 0);
      SomePermuted(exports', exports, s, 0);
      if s in a && s in b {
        SameLines(exports, tests, exports', tests', s);
      }
    }
  }

  // ----- Writing, and reading back

  function Covered(lines: Lines): nat {
    |set n | n in lines && lines[n] != 0|
  }

  function SourceRecord(source: string): string {
    "SF:" + source + "\n"
  }

  function CountRecord(number: int, count: int): string {
    "DA:" + Print(number) + "," + Print(count) + "\n"
  }

  function CountRecords(lines: Lines, numbers: seq<int>): seq<string>
    requires forall i | 0 <= i < |numbers| :: numbers[i] in lines
  {
    seq(|numbers|, i requires 0 <= i < |numbers| => CountRecord(numbers[i], lines[numbers[i]]))
  }

  function Ending(lines: Lines): seq<string> {
    ["LF:" + Print(|lines|) + "\n", "LH:" + Print(Covered(lines)) + "\n", "end_of_record\n"]
  }

  /** Each key once; sorting the keys gives one such list. */
  predicate Lists<K>(keys: seq<K>, s: set<K>) {
    && (forall i | 0 <= i < |keys| :: keys[i] in s)
    && (forall k | k in s :: k in keys)
    && (forall i, j | 0 <= i < j < |keys| :: keys[i] != keys[j])
  }

  /** The order in which the lines of each source are written. */
  predicate ListsLines(m: Files, numbers: map<string, seq<int>>) {
    forall s | s in m :: s in numbers && Lists(numbers[s], m[s].Keys)
  }

  function SourceRecords(m: Files, numbers: map<string, seq<int>>, source: string): seq<string>
    requires source in m && ListsLines(m, numbers)
  {
    [SourceRecord(source)] + CountRecords(m[source], numbers[source]) + Ending(m[source])
  }

  function Report(m: Files, sources: seq<string>, numbers: map<string, seq<int>>): seq<string>
    requires ListsLines(m, numbers) && forall i | 0 <= i < |sources| :: sources[i] in m
  {
    if sources == [] then []
    else Report(m, sources[..|sources| - 1], numbers) + SourceRecords(m, numbers, sources[|sources| - 1])
  }

  lemma OneMoreCount(lines: Lines, numbers: seq<int>, j: nat)
    requires j < |numbers| && forall i | 0 <= i < |numbers| :: numbers[i] in lines
    ensures CountRecords(lines, numbers[..j + 1]) ==
            CountRecords(lines, numbers[..j]) + [CountRecord(numbers[j], lines[numbers[j]])]
  {
  }

  method WriteSource(source: string, lines: Lines, numbers: seq<int>) returns (output: seq<string>)
    requires forall i | 0 <= i < |numbers| :: numbers[i] in lines
    ensures output == [SourceRecord(source)] + CountRecords(lines, numbers) + Ending(lines)
  {
    output := [SourceRecord(source)];
    for j := 0 to |numbers|
      invariant output == [SourceRecord(source)] + CountRecords(lines, numbers[..j])
    {
      OneMoreCount(lines, numbers, j);
      output := output + [CountRecord(numbers[j], lines[numbers[j]])];
    }
    assert numbers[..|numbers|] == numbers;
    output := output + Ending(lines);
  }

  lemma OneMoreSource(m: Files, sources: seq<string>, numbers: map<string, seq<int>>, i: nat)
    requires ListsLines(m, numbers) && i < |sources| && forall j | 0 <= j < |sources| :: sources[j] in m
    ensures Report(m, sources[..i + 1], numbers) ==
            Report(m, sources[..i], numbers) + SourceRecords(m, numbers, sources[i])
  {
    assert sources[..i + 1][..i] == sources[..i];
  }

  method WriteReport(m: Files, sources: seq<string>, numbers: map<string, seq<int>>) returns (output: seq<string>)
    requires ListsLines(m, numbers) && Lists(sources, m.Keys)
    ensures output == Report(m, sources, numbers)
  {
    output := [];
    for i := 0 to |sources|
      invariant output == Report(m, sources[..i], numbers)
    {
      var records := WriteSource(sources[i], m[sources[i]], numbers[sources[i]]);
      output := output + records;
      OneMoreSource(m, sources, numbers, i);
    }
    assert sources[..|sources|] == sources;
  }

  lemma ParseLine(s: string)
    ensures Parse(s + "\n") == Parse(s)
  {
    ParseAround([], s, "\n");
    assert [] + s + "\n" == s + "\n";
  }

  lemma NoComma(n: int)
    ensures ',' !in Print(n) && ',' !in Print(n) + "\n"
  {
  }

  lemma FieldsSplit(number: string, count: string)
    requires ',' !in number && ',' !in count
    ensures Text.Piece(number + "," + count, ',') == number && After(number + "," + count, ',') == Some(count)
    ensures Text.Piece(count, ',') == count
  {
    Text.PieceStops(number, ',', count);
    Text.PieceStops(count, ',', []);
    assert (number + [','] + count)[|number| + 1..] == count;
  }

  lemma CountsComeBack(number: int, count: int)
    ensures ParseCount(Print(number) + "," + (Print(count) + "\n")) == Some((number, count))
  {
    ParsePrint(number);
    ParsePrint(count);
    ParseLine(Print(count));
    NoComma(number);
    NoComma(count);
    FieldsSplit(Print(number), Print(count) + "\n");
  }

  lemma StepSource(r: Reader, source: string)
    ensures Step(r, SourceRecord(source)) == Some(Reader(r.files[source := LinesOf(r.files, source)], Some(source)))
  {
    assert SourceRecord(source)[3..] == source + "\n";
    assert (source + "\n")[..|source|] == source;
  }

  lemma RecordParts(number: string, count: string)
    ensures var record := "DA:" + number + "," + count + "\n";
            !("SF:" <= record) && "DA:" <= record && record[3..] == number + "," + (count + "\n")
  {
    var fields, record := number + "," + (count + "\n"), "DA:" + number + "," + count + "\n";
    assert record == "DA:" + fields;
    assert record[0] == 'D';
  }

  /** The record holds the count of a line. */
  ghost predicate Counts(record: string, number: int, count: int) {
    !("SF:" <= record) && "DA:" <= record && ParseCount(record[3..]) == Some((number, count))
  }

  lemma CountRecordCounts(number: int, count: int)
    ensures Counts(CountRecord(number, count), number, count)
  {
    RecordParts(Print(number), Print(count));
    CountsComeBack(number, count);
  }

  lemma StepCounts(r: Reader, record: string, number: int, count: int)
    requires Counts(record, number, count)
    ensures ReadFrom(r, [record]) == CountLine(r, Some((number, count)))
  {
    ReadOne(r, record);
  }

  lemma CountLineIs(r: Reader, source: string, number: int, count: int)
    requires r.current == Some(source) && source in r.files
    ensures var lines := r.files[source];
            CountLine(r, Some((number, count))) == Some(r.(files := r.files[source := lines[number := Get(lines, number) + count]]))
  {
  }

  function Only(lines: Lines, numbers: seq<int>): Lines {
    map n | n in lines && n in numbers :: lines[n]
  }

  lemma OnlyMore(lines: Lines, numbers: seq<int>, k: nat)
    requires k < |numbers| && numbers[k] in lines && forall i | 0 <= i < k :: numbers[i] != numbers[k]
    ensures numbers[k] !in Only(lines, numbers[..k])
    ensures Only(lines, numbers[..k + 1]) == Only(lines, numbers[..k])[numbers[k] := lines[numbers[k]]]
  {
    assert numbers[..k + 1] == numbers[..k] + [numbers[k]];
  }

  lemma ReadOneCount(r: Reader, source: string, lines: Lines, numbers: seq<int>, k: nat)
    requires k < |numbers| && numbers[k] in lines && forall i | 0 <= i < k :: numbers[i] != numbers[k]
    requires r.current == Some(source) && source in r.files && r.files[source] == Only(lines, numbers[..k])
    ensures ReadFrom(r, [CountRecord(numbers[k], lines[numbers[k]])]) ==
            Some(r.(files := r.files[source := Only(lines, numbers[..k + 1])]))
  {
    OnlyMore(lines, numbers, k);
    CountRecordCounts(numbers[k], lines[numbers[k]]);
    StepCounts(r, CountRecord(numbers[k], lines[numbers[k]]), numbers[k], lines[numbers[k]]);
    CountLineIs(r, source, numbers[k], lines[numbers[k]]);
  }

  /** Reading the counts of one source, of which none has been read yet. */
  lemma {:induction false} ReadCounts(r: Reader, source: string, lines: Lines, numbers: seq<int>, k: nat)
    requires r.current == Some(source) && source in r.files && r.files[source] == map[]
    requires k <= |numbers| && forall i | 0 <= i < |numbers| :: numbers[i] in lines
    requires forall i, j | 0 <= i < j < |numbers| :: numbers[i] != numbers[j]
    ensures ReadFrom(r, CountRecords(lines, numbers[..k])) ==
            Some(r.(files := r.files[source := Only(lines, numbers[..k])]))
  {
    if k == 0 {
      assert Only(lines, []) == map[];
      assert r.files[source := map[]] == r.files;
    } else {
      ReadCounts(r, source, lines, numbers, k - 1);
      OneMoreCount(lines, numbers, k - 1);
      var mid := r.(files := r.files[source := Only(lines, numbers[..k - 1])]);
      var last := [CountRecord(numbers[k - 1], lines[numbers[k - 1]])];
      ReadAppend(r, CountRecords(lines, numbers[..k - 1]), last);
      ReadOneCount(mid, source, lines, numbers, k - 1);
      assert mid.files[source := Only(lines, numbers[..k])] == r.files[source := Only(lines, numbers[..k])];
    }
  }

  lemma ReadEnding(r: Reader, lines: Lines)
    ensures ReadFrom(r, Ending(lines)) == Some(r.(current := None))
  {
    var e := Ending(lines);
    assert e[0][0] == 'L' && e[1][0] == 'L' && e[2][0] == 'e';
    assert Step(r, e[0]) == Some(r) && Step(r, e[1]) == Some(r);
    assert e == [e[0]] + ([e[1]] + [e[2]]);
    ReadAppend(r, [e[0]], [e[1]] + [e[2]]);
    ReadAppend(r, [e[1]], [e[2]]);
    ReadOne(r, e[0]);
    ReadOne(r, e[1]);
    ReadOne(r, e[2]);
  }

  lemma AllListed(lines: Lines, numbers: seq<int>)
    requires Lists(numbers, lines.Keys)
    ensures Only(lines, numbers) == lines
  {
  }

  lemma ReadSource(r: Reader, m: Files, numbers: map<string, seq<int>>, source: string)
    requires source in m && ListsLines(m, numbers) && source !in r.files
    ensures ReadFrom(r, SourceRecords(m, numbers, source)) == Some(Reader(r.files[source := m[source]], None))
  {
    var lines, ns := m[source], numbers[source];
    var begun := Reader(r.files[source := map[]], Some(source));
    var counted := Reader(r.files[source := lines], Some(source));
    var first, counts := [SourceRecord(source)], CountRecords(lines, ns);
    StepSource(r, source);
    ReadOne(r, SourceRecord(source));
    assert ns[..|ns|] == ns;
    ReadCounts(begun, source, lines, ns, |ns|);
    AllListed(lines, ns);
    assert begun.files[source := lines] == counted.files;
    ReadAppend(r, first, counts);
    ReadAppend(r, first + counts, Ending(lines));
    ReadEnding(counted, lines);
  }

  function OnlySources(m: Files, sources: seq<string>): Files {
    map s | s in m && s in sources :: m[s]
  }

  lemma OnlySourcesMore(m: Files, sources: seq<string>, k: nat)
    requires k < |sources| && sources[k] in m && forall i | 0 <= i < k :: sources[i] != sources[k]
    ensures sources[k] !in OnlySources(m, sources[..k])
    ensures OnlySources(m, sources[..k + 1]) == OnlySources(m, sources[..k])[sources[k] := m[sources[k]]]
  {
    assert sources[..k + 1] == sources[..k] + [sources[k]];
  }

  lemma {:induction false} ReadSources(m: Files, sources: seq<string>, numbers: map<string, seq<int>>, k: nat)
    requires ListsLines(m, numbers) && k <= |sources| && forall i | 0 <= i < |sources| :: sources[i] in m
    requires forall i, j | 0 <= i < j < |sources| :: sources[i] != sources[j]
    ensures ReadFrom(Reader(map[], None), Report(m, sources[..k], numbers)) ==
            Some(Reader(OnlySources(m, sources[..k]), None))
  {
    if k == 0 {
      assert OnlySources(m, []) == map[];
    } else {
      var source, start := sources[k - 1], Reader(map[], None);
      ReadSources(m, sources, numbers, k - 1);
      OneMoreSource(m, sources, numbers, k - 1);
      OnlySourcesMore(m, sources, k - 1);
      ReadAppend(start, Report(m, sources[..k - 1], numbers), SourceRecords(m, numbers, source));
      ReadSource(Reader(OnlySources(m, sources[..k - 1]), None), m, numbers, source);
    }
  }

  lemma ReportReadsBack(m: Files, sources: seq<string>, numbers: map<string, seq<int>>)
    requires ListsLines(m, numbers) && Lists(sources, m.Keys)
    ensures Read(Report(m, sources, numbers)) == Some(m)
  {
    ReadSources(m, sources, numbers, |sources|);
    assert sources[..|sources|] == sources;
    assert OnlySources(m, sources) == m;
  }

  // ----- Files of text

  /** Iterating over an open file: each record ends with its newline. */
  function Records(text: string): seq<string> {
    if text == [] then [] else
    var n := |Text.Piece(text, '\n')|;
    if n == |text| then [text] else [text[..n + 1]] + Records(text[n + 1..])
  }

  function Concat(records: seq<string>): string {
    if records == [] then [] else records[0] + Concat(records[1..])
  }

  /** A newline at the end and nowhere else. */
  predicate IsRecord(record: string) {
    record != [] && record[|record| - 1] == '\n' && '\n' !in record[..|record| - 1]
  }

  lemma {:induction false} TextSplits(records: seq<string>)
    requires forall i | 0 <= i < |records| :: IsRecord(records[i])
    ensures Records(Concat(records)) == records
  {
    if records != [] {
      var line, rest := records[0], Concat(records[1..]);
      var body := line[..|line| - 1];
      assert line + rest == body + ['\n'] + rest;
      Text.PieceStops(body, '\n', rest);
      assert (line + rest)[..|line|] == line && (line + rest)[|line|..] == rest;
      TextSplits(records[1..]);
    }
  }

  predicate CleanNames(m: Files) {
    forall s | s in m :: '\n' !in s
  }

  lemma RecordEndsOnce(body: string)
    requires '\n' !in body
    ensures IsRecord(body + "\n")
  {
    assert (body + "\n")[..|body|] == body;
  }

  lemma NoNewline(n: int)
    ensures '\n' !in Print(n)
  {
  }

  lemma CountRecordsEnd(lines: Lines, numbers: seq<int>)
    requires forall i | 0 <= i < |numbers| :: numbers[i] in lines
    ensures forall i | 0 <= i < |numbers| :: IsRecord(CountRecords(lines, numbers)[i])
  {
    forall i | 0 <= i < |numbers| ensures IsRecord(CountRecords(lines, numbers)[i]) {
      NoNewline(numbers[i]);
      NoNewline(lines[numbers[i]]);
      RecordEndsOnce("DA:" + Print(numbers[i]) + "," + Print(lines[numbers[i]]));
    }
  }

  lemma SourceRecordsEnd(m: Files, numbers: map<string, seq<int>>, source: string)
    requires source in m && ListsLines(m, numbers) && '\n' !in source
    ensures forall i | 0 <= i < |SourceRecords(m, numbers, source)| :: IsRecord(SourceRecords(m, numbers, source)[i])
  {
    var lines := m[source];
    RecordEndsOnce("SF:" + source);
    CountRecordsEnd(lines, numbers[source]);
    NoNewline(|lines|);
    NoNewline(Covered(lines));
    RecordEndsOnce("LF:" + Print(|lines|));
    RecordEndsOnce("LH:" + Print(Covered(lines)));
    RecordEndsOnce("end_of_record");
  }

  lemma {:induction false} ReportEnds(m: Files, sources: seq<string>, numbers: map<string, seq<int>>)
    requires CleanNames(m) && ListsLines(m, numbers) && forall i | 0 <= i < |sources| :: sources[i] in m
    ensures forall i | 0 <= i < |Report(m, sources, numbers)| :: IsRecord(Report(m, sources, numbers)[i])
    decreases |sources|
  {
    if sources != [] {
      ReportEnds(m, sources[..|sources| - 1], numbers);
      SourceRecordsEnd(m, numbers, sources[|sources| - 1]);
    }
  }

  /** Reading the written report back gives the merged counts, in whatever order it lists them. */
  lemma WrittenReportReadsBack(m: Files, sources: seq<string>, numbers: map<string, seq<int>>)
    requires CleanNames(m) && ListsLines(m, numbers) && Lists(sources, m.Keys)
    ensures Read(Records(Concat(Report(m, sources, numbers)))) == Some(m)
  {
    ReportEnds(m, sources, numbers);
    TextSplits(Report(m, sources, numbers));
    ReportReadsBack(m, sources, numbers);
  }

  /** No record of a file has a newline inside. */
  lemma {:induction false} RecordsHaveOneNewline(text: string)
    ensures forall i | 0 <= i < |Records(text)| :: '\n' !in Chomp(Records(text)[i])
    decreases |text|
  {
    if text != [] {
      var body := Text.Piece(text, '\n');
      if |body| < |text| {
        RecordsHaveOneNewline(text[|body| + 1..]);
        assert text[..|body| + 1][..|body|] == body;
        assert '\n' !in Chomp(text[..|body| + 1]);
      } else {
        assert body == text;
      }
    }
  }

  lemma {:induction false} ReadKeepsNamesClean(r: Reader, records: seq<string>)
    requires CleanNames(r.files) && forall i | 0 <= i < |records| :: '\n' !in Chomp(records[i])
    ensures ReadFrom(r, records).Some? ==> CleanNames(ReadFrom(r, records).value.files)
    decreases |records|
  {
    if records != [] && Step(r, records[0]).Some? {
      var record := records[0];
      if "SF:" <= record {
        assert forall i | 0 <= i < |Chomp(record[3..])| :: Chomp(record[3..])[i] == Chomp(record)[i + 3];
      }
      ReadKeepsNamesClean(Step(r, record).value, records[1..]);
    }
  }

  /** Source names read from files never break a line, so every merged report reads back. */
  lemma MergedNamesAreClean(exports: seq<Files>, tests: seq<Files>, texts: seq<string>)
    requires |texts| == |exports| && forall i | 0 <= i < |texts| :: Read(Records(texts[i])) == Some(exports[i])
    ensures CleanNames(Merged(exports, tests))
  {
    forall s | s in Merged(exports, tests) ensures '\n' !in s {
      MergedExactly(exports, tests, s, 0);
      var i :| 0 <= i < |exports| && s in exports[i];
      RecordsHaveOneNewline(texts[i]);
      ReadKeepsNamesClean(Reader(map[], None), Records(texts[i]));
    }
  }
}

/** The three loads `valid_reader` performs at construction: the triples of one shard,
    the queries table and the passage collection. Each loader takes the file's lines,
    already read, and works through them in order as the source's loops do. */
module Loaders {
  import opened Types
  import opened PyText

  /** Python's `i % n`: floor modulo, so the result takes the sign of `n`. */
  function PyMod(i: int, n: int): (r: int)
    requires n != 0
    ensures n > 0 ==> 0 <= r < n
    ensures n > 0 ==> r == i % n
    ensures n < 0 ==> n < r <= 0
  {
    var e := i % n;
    if n < 0 && e != 0 then e + n else e
  }

  // ---------------------------------------------------------------------------
  // _load_triples

  /** The items whose index `i` satisfies `i % nranks == rank`, in their original order. */
  function Shard<T>(xs: seq<T>, rank: int, nranks: int): (s: seq<T>)
    requires nranks != 0
    ensures |s| <= |xs|
    decreases |xs|
  {
    if xs == [] then []
    else
      var n := |xs| - 1;
      Shard(xs[..n], rank, nranks) + (if PyMod(n, nranks) == rank then [xs[n]] else [])
  }

  /** The indices below `n` that belong to shard `rank`, in increasing order. */
  function KeptIndices(n: nat, rank: int, nranks: int): (idx: seq<nat>)
    requires nranks != 0
    ensures forall k, l :: 0 <= k < l < |idx| ==> idx[k] < idx[l]
    ensures forall i :: i in idx <==> 0 <= i < n && PyMod(i, nranks) == rank
    decreases n
  {
    if n == 0 then []
    else
      var before := KeptIndices(n - 1, rank, nranks);
      assert forall k :: 0 <= k < |before| ==> before[k] in before;
      before + (if PyMod(n - 1, nranks) == rank then [n - 1] else [])
  }

  /** A shard is the subsequence of the lines at the kept indices: its k-th item is
      the line at the k-th kept index. */
  lemma {:induction false} ShardSelects<T>(xs: seq<T>, rank: int, nranks: int)
    requires nranks != 0
    ensures |Shard(xs, rank, nranks)| == |KeptIndices(|xs|, rank, nranks)|
    ensures forall k :: 0 <= k < |Shard(xs, rank, nranks)| ==>
              KeptIndices(|xs|, rank, nranks)[k] < |xs| &&
              Shard(xs, rank, nranks)[k] == xs[KeptIndices(|xs|, rank, nranks)[k]]
    decreases |xs|
  {
    if xs != [] {
      var n := |xs| - 1;
      ShardSelects(xs[..n], rank, nranks);
    }
  }

  /** Reading one more line adds it to the shard exactly when its index belongs there. */
  lemma ShardAppend<T>(xs: seq<T>, x: T, rank: int, nranks: int)
    requires nranks != 0
    ensures Shard(xs + [x], rank, nranks) ==
            Shard(xs, rank, nranks) + (if PyMod(|xs|, nranks) == rank then [x] else [])
  {
    assert (xs + [x])[..|xs|] == xs;
  }

  /** A shard of a prefix of the lines is a prefix of the shard of all the lines. */
  lemma {:induction false} ShardPrefix<T>(xs: seq<T>, j: nat, rank: int, nranks: int)
    requires nranks != 0 && j <= |xs|
    ensures |Shard(xs[..j], rank, nranks)| <= |Shard(xs, rank, nranks)|
    ensures Shard(xs[..j], rank, nranks) == Shard(xs, rank, nranks)[..|Shard(xs[..j], rank, nranks)|]
    decreases |xs| - j
  {
    if j == |xs| {
      assert xs[..j] == xs;
    } else {
      var n := |xs| - 1;
      ShardPrefix(xs[..n], j, rank, nranks);
      assert xs[..n][..j] == xs[..j];
    }
  }

  /** With the default `rank=0, nranks=1` the shard is the whole file. */
  lemma {:induction false} ShardWhole<T>(xs: seq<T>)
    ensures Shard(xs, 0, 1) == xs
    decreases |xs|
  {
    if xs != [] {
      var n := |xs| - 1;
      ShardWhole(xs[..n]);
      assert xs[..n] + [xs[n]] == xs;
    }
  }

  /** The total length of the shards of ranks `0 .. k-1`. */
  function ShardsLength<T>(xs: seq<T>, nranks: int, k: nat): nat
    requires nranks != 0
  {
    if k == 0 then 0 else ShardsLength(xs, nranks, k - 1) + |Shard(xs, k - 1, nranks)|
  }

  /** Appending line `x` at index `|xs|`, whose rank is `m`, lengthens the shards of
      ranks below `k` by one in total exactly when `m < k`. */
  lemma {:induction false} ShardsLengthStep<T>(xs: seq<T>, x: T, nranks: int, m: int, k: nat)
    requires nranks > 0 && m == PyMod(|xs|, nranks)
    ensures ShardsLength(xs + [x], nranks, k) ==
            ShardsLength(xs, nranks, k) + (if m < k then 1 else 0)
  {
    if k > 0 {
      ShardsLengthStep(xs, x, nranks, m, k - 1);
      ShardAppend(xs, x, k - 1, nranks);
    }
  }

  lemma {:induction false} ShardsOfNothing<T>(nranks: int, k: nat)
    requires nranks > 0
    ensures ShardsLength<T>([], nranks, k) == 0
  {
    if k > 0 {
      ShardsOfNothing<T>(nranks, k - 1);
    }
  }

  /** The shards of ranks `0 .. nranks-1` partition the lines: each index is kept by
      exactly one rank, and the shards' lengths add up to the number of lines. */
  lemma ShardsPartition<T>(xs: seq<T>, nranks: int)
    requires nranks > 0
    ensures forall i, r :: 0 <= i < |xs| && 0 <= r < nranks ==>
              (i in KeptIndices(|xs|, r, nranks) <==> r == i % nranks)
    ensures ShardsLength(xs, nranks, nranks) == |xs|
  {
    ShardsCover(xs, nranks);
  }

  lemma {:induction false} ShardsCover<T>(xs: seq<T>, nranks: int)
    requires nranks > 0
    ensures ShardsLength(xs, nranks, nranks) == |xs|
    decreases |xs|
  {
    if xs == [] {
      ShardsOfNothing<T>(nranks, nranks);
    } else {
      var n := |xs| - 1;
      var m := PyMod(n, nranks);
      assert m < nranks;
      ShardsCover(xs[..n], nranks);
      ShardsLengthStep(xs[..n], xs[n], nranks, m, nranks);
      assert xs[..n] + [xs[n]] == xs;
    }
  }

  /** Decodes the kept lines in order; the first line the decoder rejects stops the load. */
  function DecodeAll(lines: seq<string>, decode: string -> Option<Triple>): (r: Result<seq<Triple>>)
    ensures r.Ok? <==> forall i :: 0 <= i < |lines| ==> decode(lines[i]).Some?
    ensures r.Ok? ==> |r.value| == |lines| &&
                      forall i :: 0 <= i < |lines| ==> r.value[i] == decode(lines[i]).value
    ensures r.Err? ==> r.error == TripleDecodeError
    decreases |lines|
  {
    if lines == [] then Ok([])
    else
      var n := |lines| - 1;
      match DecodeAll(lines[..n], decode)
      case Err(e) => Err(e)
      case Ok(ts) =>
        match decode(lines[n])
        case None => Err(TripleDecodeError)
        case Some(t) => Ok(ts + [t])
  }

  /** What `_load_triples(lines, rank, nranks)` yields: the decoded triples of this
      rank's shard, or the exception it raises. `line_idx % nranks` is evaluated for the
      first line already, so `nranks == 0` fails on any non-empty file. */
  function LoadedTriples(lines: seq<string>, rank: int, nranks: int, decode: string -> Option<Triple>)
    : Result<seq<Triple>>
  {
    if lines == [] then Ok([])
    else if nranks == 0 then Err(ZeroDivisionError)
    else DecodeAll(Shard(lines, rank, nranks), decode)
  }

  lemma DecodeAllAppend(ls: seq<string>, x: string, decode: string -> Option<Triple>)
    requires DecodeAll(ls, decode).Ok? && decode(x).Some?
    ensures DecodeAll(ls + [x], decode) == Ok(DecodeAll(ls, decode).value + [decode(x).value])
  {
    assert (ls + [x])[..|ls|] == ls;
  }

  /** A kept line the decoder rejects makes the whole load fail. */
  lemma DecodeFailsAt(lines: seq<string>, i: nat, rank: int, nranks: int, decode: string -> Option<Triple>)
    requires nranks != 0 && i < |lines| && PyMod(i, nranks) == rank && decode(lines[i]).None?
    ensures DecodeAll(Shard(lines, rank, nranks), decode).Err?
  {
    var full := Shard(lines, rank, nranks);
    var before := Shard(lines[..i], rank, nranks);
    ShardPrefix(lines, i + 1, rank, nranks);
    assert lines[..i + 1] == lines[..i] + [lines[i]];
    ShardAppend(lines[..i], lines[i], rank, nranks);
    var upto := before + [lines[i]];
    assert upto == full[..|upto|];
    assert full[|before|] == upto[|before|] == lines[i];
    assert decode(full[|before|]).None?;
  }

  /** What reading line `i` does to the triples loaded so far. */
  lemma DecodeStep(lines: seq<string>, i: nat, rank: int, nranks: int, decode: string -> Option<Triple>,
                   triples: seq<Triple>)
    requires nranks != 0 && i < |lines|
    requires DecodeAll(Shard(lines[..i], rank, nranks), decode) == Ok(triples)
    ensures PyMod(i, nranks) != rank ==>
              DecodeAll(Shard(lines[..i + 1], rank, nranks), decode) == Ok(triples)
    ensures PyMod(i, nranks) == rank && decode(lines[i]).Some? ==>
              DecodeAll(Shard(lines[..i + 1], rank, nranks), decode) == Ok(triples + [decode(lines[i]).value])
  {
    var prefix, line := lines[..i], lines[i];
    assert lines[..i + 1] == prefix + [line];
    ShardAppend(prefix, line, rank, nranks);
    var before := Shard(prefix, rank, nranks);
    if PyMod(i, nranks) != rank {
      assert Shard(prefix + [line], rank, nranks) == before + [];
      assert before + [] == before;
    } else if decode(line).Some? {
      assert Shard(prefix + [line], rank, nranks) == before + [line];
      DecodeAllAppend(before, line, decode);
    }
  }

  /** `_load_triples`: walks the lines with their index and decodes and appends each
      line whose index falls in this rank's shard. */
  method LoadTriples(lines: seq<string>, rank: int, nranks: int, decode: string -> Option<Triple>)
    returns (r: Result<seq<Triple>>)
    ensures r == LoadedTriples(lines, rank, nranks, decode)
  {
    var triples := [];
    for lineIdx := 0 to |lines|
      invariant lineIdx > 0 ==> nranks != 0
      invariant nranks == 0 ==> triples == []
      invariant nranks != 0 ==> DecodeAll(Shard(lines[..lineIdx], rank, nranks), decode) == Ok(triples)
    {
      if nranks == 0 {
        return Err(ZeroDivisionError);
      }
      DecodeStep(lines, lineIdx, rank, nranks, decode, triples);
      if PyMod(lineIdx, nranks) == rank {
        var t := decode(lines[lineIdx]);
        if t.None? {
          DecodeFailsAt(lines, lineIdx, rank, nranks, decode);
          return Err(TripleDecodeError);
        }
        triples := triples + [t.value];
      }
    }
    assert lines[..|lines|] == lines;
    return Ok(triples);
  }

  // ---------------------------------------------------------------------------
  // _load_queries and _load_collection

  /** The fields of a line: stripped, then split on tab. */
  function Fields(line: string): (f: seq<string>)
    ensures |f| >= 1
  {
    Split(Strip(line), '\t')
  }

  /** One line of the queries file: exactly two fields, the id and the query text. */
  function QueryEntry(line: string): (r: Result<Entry>)
    ensures r.Ok? ==> Strip(line) == Fields(line)[0] + "\t" + r.value.text && '\t' !in r.value.text
  {
    var f := Fields(line);
    if |f| != 2 then Err(UnpackError)
    else match ParseInt(f[0])
      case None => Err(IntError)
      case Some(id) =>
        assert Join(f, '\t') == f[0] + ['\t'] + f[1];
        Ok(Entry(id, f[1]))
  }

  /** One line of the collection file: at least three fields, the id, the passage body
      and the title, any further fields ignored; the stored text is `title | body`. */
  function PassageEntry(line: string): Result<Entry>
  {
    var f := Fields(line);
    if |f| < 3 then Err(UnpackError)
    else match ParseInt(f[0])
      case None => Err(IntError)
      case Some(id) => Ok(Entry(id, f[2] + " | " + f[1]))
  }

  /** A table built from the lines in order, a later line overwriting an earlier one
      with the same id; the first line `parse` rejects stops the load with its error. */
  function Tabulate(lines: seq<string>, parse: string -> Result<Entry>): Result<map<int, string>>
    decreases |lines|
  {
    if lines == [] then Ok(map[])
    else
      var n := |lines| - 1;
      match Tabulate(lines[..n], parse)
      case Err(e) => Err(e)
      case Ok(m) =>
        match parse(lines[n])
        case Err(e) => Err(e)
        case Ok(entry) => Ok(m[entry.id := entry.text])
  }

  /** Loading succeeds exactly when every line parses; when it fails, the error is the
      one of the first line that does not parse. */
  lemma {:induction false} TabulateOutcome(lines: seq<string>, parse: string -> Result<Entry>)
    ensures Tabulate(lines, parse).Ok? <==> forall i :: 0 <= i < |lines| ==> parse(lines[i]).Ok?
    ensures Tabulate(lines, parse).Err? ==>
              exists i :: 0 <= i < |lines| && parse(lines[i]) == Err(Tabulate(lines, parse).error) &&
                          forall j :: 0 <= j < i ==> parse(lines[j]).Ok?
    decreases |lines|
  {
    if lines != [] {
      var n := |lines| - 1;
      var prefix := lines[..n];
      assert forall i :: 0 <= i < n ==> prefix[i] == lines[i];
      TabulateOutcome(prefix, parse);
      if Tabulate(prefix, parse).Err? {
        var i :| 0 <= i < n && parse(prefix[i]) == Err(Tabulate(prefix, parse).error) &&
                 forall j :: 0 <= j < i ==> parse(prefix[j]).Ok?;
        assert parse(lines[i]).Err?;
      } else if parse(lines[n]).Err? {
        assert forall j :: 0 <= j < n ==> parse(lines[j]).Ok?;
      }
    }
  }

  /** What reading line `i` does to the table built so far. */
  lemma TabulateStep(lines: seq<string>, i: nat, parse: string -> Result<Entry>, m: map<int, string>)
    requires i < |lines| && Tabulate(lines[..i], parse) == Ok(m)
    ensures parse(lines[i]).Err? ==> Tabulate(lines[..i + 1], parse) == Err(parse(lines[i]).error)
    ensures parse(lines[i]).Ok? ==>
              Tabulate(lines[..i + 1], parse) == Ok(m[parse(lines[i]).value.id := parse(lines[i]).value.text])
  {
    assert lines[..i + 1][..i] == lines[..i];
  }

  /** Once a prefix of the lines fails, so does the whole file, with the same error. */
  lemma {:induction false} TabulateFailsEarly(lines: seq<string>, j: nat, parse: string -> Result<Entry>)
    requires j <= |lines| && Tabulate(lines[..j], parse).Err?
    ensures Tabulate(lines, parse) == Tabulate(lines[..j], parse)
    decreases |lines| - j
  {
    if j == |lines| {
      assert lines[..j] == lines;
    } else {
      var n := |lines| - 1;
      assert lines[..n][..j] == lines[..j];
      TabulateFailsEarly(lines[..n], j, parse);
    }
  }

  /** When every line parses, an id is in the table exactly when some line carries it,
      and it maps to the text of the last such line. */
  lemma {:induction false} TabulateLookup(lines: seq<string>, parse: string -> Result<Entry>, id: int)
    requires forall i :: 0 <= i < |lines| ==> parse(lines[i]).Ok?
    ensures Tabulate(lines, parse).Ok?
    ensures id in Tabulate(lines, parse).value <==>
              exists i :: 0 <= i < |lines| && parse(lines[i]).value.id == id
    ensures id in Tabulate(lines, parse).value ==>
              exists i :: 0 <= i < |lines| && parse(lines[i]).value == Entry(id, Tabulate(lines, parse).value[id]) &&
                          forall j :: i < j < |lines| ==> parse(lines[j]).value.id != id
    decreases |lines|
  {
    if lines != [] {
      var n := |lines| - 1;
      var prefix := lines[..n];
      assert forall i :: 0 <= i < n ==> prefix[i] == lines[i];
      TabulateLookup(prefix, parse, id);
      var before := Tabulate(prefix, parse).value;
      TabulateStep(lines, n, parse, before);
      assert lines[..n + 1] == lines;
      var m := Tabulate(lines, parse).value;
      var e := parse(lines[n]).value;
      assert m == before[e.id := e.text];
      if e.id == id {
        assert parse(lines[n]).value == Entry(id, m[id]);
      } else if id in before {
        var i :| 0 <= i < |prefix| && parse(prefix[i]).value == Entry(id, before[id]) &&
                 forall j :: i < j < |prefix| ==> parse(prefix[j]).value.id != id;
        assert parse(lines[i]).value == Entry(id, m[id]);
        assert forall j :: i < j < |lines| ==> parse(lines[j]).value.id != id;
      } else {
        assert id !in m;
      }
    }
  }

  /** `_load_queries`: each line in turn is parsed by `QueryEntry` (strip, split on tab,
      unpack exactly two fields, `int()` of the id) and its text stored under its id; the
      first line that fails stops the load with its exception. */
  method LoadQueries(lines: seq<string>) returns (r: Result<map<int, string>>)
    ensures r == Tabulate(lines, QueryEntry)
  {
    var queries := map[];
    for i := 0 to |lines|
      invariant Tabulate(lines[..i], QueryEntry) == Ok(queries)
    {
      TabulateStep(lines, i, QueryEntry, queries);
      var entry := QueryEntry(lines[i]);
      if entry.Err? {
        TabulateFailsEarly(lines, i + 1, QueryEntry);
        return Err(entry.error);
      }
      queries := queries[entry.value.id := entry.value.text];
    }
    assert lines[..|lines|] == lines;
    return Ok(queries);
  }

  /** `_load_collection`: each line in turn is parsed by `PassageEntry` (strip, split on
      tab, unpack at least three fields, `title | passage`, `int()` of the id) and the text
      stored under its id; the first line that fails stops the load with its exception. */
  method LoadCollection(lines: seq<string>) returns (r: Result<map<int, string>>)
    ensures r == Tabulate(lines, PassageEntry)
  {
    var collection := map[];
    for lineIdx := 0 to |lines|
      invariant Tabulate(lines[..lineIdx], PassageEntry) == Ok(collection)
    {
      TabulateStep(lines, lineIdx, PassageEntry, collection);
      var entry := PassageEntry(lines[lineIdx]);
      if entry.Err? {
        TabulateFailsEarly(lines, lineIdx + 1, PassageEntry);
        return Err(entry.error);
      }
      collection := collection[entry.value.id := entry.value.text];
    }
    assert lines[..|lines|] == lines;
    return Ok(collection);
  }

  // ---------------------------------------------------------------------------
  // What a well-formed line parses to

  predicate EndsClean(s: string)
  {
    s != [] && !IsSpace(s[|s| - 1])
  }

  lemma ShowHasNoTab(n: int)
    ensures '\t' !in Show(n) && Show(n) != [] && !IsSpace(Show(n)[0])
  {
    var digits := ShowNat(if n < 0 then -n else n);
    assert Show(n)[0] == '-' || Show(n)[0] == digits[0];
    assert forall i :: 0 <= i < |Show(n)| ==> Show(n)[i] == '-' || IsDigit(Show(n)[i]);
  }

  /** Tab-joined fields, with whitespace around them, split back into those fields. */
  lemma FieldsOfRow(pre: string, fields: seq<string>, post: string)
    requires AllSpace(pre) && AllSpace(post)
    requires |fields| >= 1 && forall k :: 0 <= k < |fields| ==> '\t' !in fields[k]
    requires fields[0] != [] && !IsSpace(fields[0][0]) && EndsClean(Join(fields, '\t'))
    ensures Fields(pre + Join(fields, '\t') + post) == fields
  {
    var row := Join(fields, '\t');
    assert row[0] == fields[0][0];
    StripFramed(pre, row, post, SpaceChars);
    SplitJoin(fields, '\t');
  }

  lemma ShowParses(id: int)
    ensures ParseInt(Show(id)) == Some(id)
  {
    ParseShow([], id, []);
    Unframed(Show(id));
  }

  lemma Unframed(s: string)
    ensures [] + s + [] == s
  {
  }

  /** A queries line written as `str(id) + "\t" + text`, with any whitespace around it
      (such as the newline), parses back to that id and text. */
  lemma QueryLine(pre: string, id: int, text: string, post: string)
    requires AllSpace(pre) && AllSpace(post)
    requires '\t' !in text && EndsClean(text)
    ensures QueryEntry(pre + Show(id) + "\t" + text + post) == Ok(Entry(id, text))
  {
    var fields := [Show(id), text];
    var line := pre + Show(id) + "\t" + text + post;
    assert line == pre + Join(fields, '\t') + post by {
      assert Join(fields, '\t') == Show(id) + "\t" + text;
    }
    assert Fields(line) == fields by {
      ShowHasNoTab(id);
      FieldsOfRow(pre, fields, post);
    }
    ShowParses(id);
  }

  /** A collection line written as tab-joined fields, `str(id)`, the passage body, the
      title and any further fields, with any whitespace around it, parses to
      `title | body` under that id. */
  lemma PassageLine(pre: string, id: int, fields: seq<string>, post: string)
    requires AllSpace(pre) && AllSpace(post)
    requires |fields| >= 3 && fields[0] == Show(id)
    requires forall k :: 0 <= k < |fields| ==> '\t' !in fields[k]
    requires EndsClean(Join(fields, '\t'))
    ensures PassageEntry(pre + Join(fields, '\t') + post) == Ok(Entry(id, fields[2] + " | " + fields[1]))
  {
    ShowHasNoTab(id);
    FieldsOfRow(pre, fields, post);
    ShowParses(id);
  }

  /** The collection line `7<TAB>foo<TAB>Bar` stores `Bar | foo` under id 7. */
  lemma PassageExample()
    ensures PassageEntry("7\tfoo\tBar\n") == Ok(Entry(7, "Bar | foo"))
  {
    var fields := ["7", "foo", "Bar"];
    assert Show(7) == "7";
    JoinExample();
    assert forall k :: 0 <= k < |fields| ==> '\t' !in fields[k];
    PassageLine([], 7, fields, "\n");
    SpellingExample();
  }

  lemma JoinExample()
    ensures Join(["7", "foo", "Bar"], '\t') == "7\tfoo\tBar"
  {
    var fields := ["7", "foo", "Bar"];
    assert fields[1..] == ["foo", "Bar"] && fields[1..][1..] == ["Bar"];
  }

  lemma SpellingExample()
    ensures [] + "7\tfoo\tBar" + "\n" == "7\tfoo\tBar\n"
    ensures [] + "1" + "\t" + "hello world" + "\n" == "1\thello world\n"
    ensures ["7", "foo", "Bar"][2] + " | " + ["7", "foo", "Bar"][1] == "Bar | foo"
  {
  }

  /** The queries line `1<TAB>hello world` stores `hello world` under id 1. */
  lemma QueryExample()
    ensures QueryEntry("1\thello world\n") == Ok(Entry(1, "hello world"))
  {
    assert Show(1) == "1";
    QueryLine([], 1, "hello world", "\n");
    SpellingExample();
  }

  /** A queries line whose id field ends in U+001C and U+00A0 is rejected by `int()`,
      although `strip()` and the split on tab leave that field as it is. */
  lemma SeparatorIdExample()
    ensures Fields("5\U{1C}\U{A0}\tfoo\n") == ["5\U{1C}\U{A0}", "foo"]
    ensures QueryEntry("5\U{1C}\U{A0}\tfoo\n") == Err(IntError)
  {
    var line := "5\U{1C}\U{A0}\tfoo\n";
    var fields := ["5\U{1C}\U{A0}", "foo"];
    assert SkipSpace(line, 0, SpaceChars) == 0;
    assert SkipSpaceBack(line, 0, 8, SpaceChars) == 7 by {
      assert |line| == 8 && line[7] == '\n' && line[6] == 'o';
      assert line[6] !in SpaceChars;
      assert SkipSpaceBack(line, 0, 7, SpaceChars) == 7;
    }
    assert Join(fields, '\t') == line[0..7];
    SplitJoin(fields, '\t');
    assert ParseInt(fields[0]) == None by {
      assert fields[0][1] == '\U{1C}';
    }
  }
}

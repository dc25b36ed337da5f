/** The text handling of the AHF reader (pynbody/halo/ahf.py): the
    file-name format check, the halo-numbering keyword, the `.halos`
    property table and the `.substructure` pairing of lines. */
module AhfFiles {
  import opened Wrappers
  import opened Seqs
  import opened PyStrings
  import IndexLists

  // ---------------------------------------------------------------------
  // _determine_format_revision_from_filename

  /** `basename.split("z")[-2][-1] == "."`: an IndexError when there is no
      `z`, or when the piece before the last `z` is empty. */
  function IsNewFormat(basename: string): Result<bool> {
    var parts := SplitOn(basename, 'z');
    if |parts| < 2 then Failure(IndexError)
    else
      var piece := parts[|parts| - 2];
      if |piece| == 0 then Failure(IndexError) else Success(piece[|piece| - 1] == '.')
  }

  /** Putting text in front of a string that holds a separator changes
      only the first piece: the last piece stays, and so does the one
      before it, except that it may grow at the front when it was first. */
  lemma {:induction false} SplitOnPrefix(x: string, t: string, c: char)
    requires |SplitOn(t, c)| >= 2
    ensures var pt := SplitOn(t, c); var p := SplitOn(x + t, c);
      && |p| >= |pt|
      && p[|p| - 1] == pt[|pt| - 1]
      && (|pt| >= 3 ==> p[|p| - 2] == pt[|pt| - 2])
      && (|pt| == 2 ==> |p[|p| - 2]| >= |pt[0]| && p[|p| - 2][|p[|p| - 2]| - |pt[0]|..] == pt[0])
  {
    if |x| == 0 {
      assert x + t == t;
      var pt := SplitOn(t, c);
      assert SplitOn(x + t, c) == pt;
      assert |pt| == 2 ==> pt[|pt| - 2] == pt[0];
      assert pt[|pt| - 2][0..] == pt[|pt| - 2];
    } else {
      assert (x + t)[1..] == x[1..] + t;
      SplitOnPrefix(x[1..], t, c);
      var rest := SplitOn(x[1..] + t, c);
      var p := SplitOn(x + t, c);
      if x[0] == c {
        assert p == [[]] + rest;
      } else {
        assert p == [[x[0]] + rest[0]] + rest[1..];
        if |rest| == 2 {
          var w := p[|p| - 2];
          assert w == [x[0]] + rest[0];
        }
      }
    }
  }

  lemma SplitOnLeading(s: string, c: char)
    requires |s| > 0 && s[0] == c
    ensures SplitOn(s, c) == [[]] + SplitOn(s[1..], c)
  {
  }

  /** A name made of one `z` and a `z`-free rest splits into an empty
      piece and the rest. */
  lemma SplitLeadingZ(y: string)
    requires 'z' !in y
    ensures SplitOn("z" + y, 'z') == [[], y]
  {
    var zy := "z" + y;
    SplitOnAbsent(y, 'z');
    assert zy[1..] == y;
    SplitOnLeading(zy, 'z');
  }

  /** One more character in front: a second `z` adds an empty piece,
      any other character joins the first piece. */
  lemma SplitBeforeZ(ch: char, y: string)
    requires 'z' !in y
    ensures SplitOn([ch] + "z" + y, 'z') == if ch == 'z' then [[], [], y] else [[ch], y]
  {
    var zy := "z" + y;
    var tail := [ch] + zy;
    assert [ch] + "z" + y == tail;
    SplitLeadingZ(y);
    assert tail[1..] == zy;
    if ch == 'z' {
      SplitOnLeading(tail, 'z');
    } else {
      assert SplitOn(tail, 'z') == [[ch] + SplitOn(zy, 'z')[0]] + SplitOn(zy, 'z')[1..];
      assert [ch] + [] == [ch];
    }
  }

  /** Text in front of a string of two pieces keeps the last character
      of the piece before the last separator. */
  lemma PrefixTwoPieces(x: string, t: string, c: char, u: string, v: string)
    requires SplitOn(t, c) == [u, v] && |u| > 0
    ensures var p := SplitOn(x + t, c);
      |p| >= 2 && |p[|p| - 2]| > 0 && p[|p| - 2][|p[|p| - 2]| - 1] == u[|u| - 1]
  {
    SplitOnPrefix(x, t, c);
    var p := SplitOn(x + t, c);
    var w := p[|p| - 2];
    assert w[|w| - |u|..] == u;
    assert w[|w| - 1] == w[|w| - |u|..][|u| - 1];
  }

  /** Text in front of a string of three pieces keeps the piece before
      the last separator. */
  lemma PrefixThreePieces(x: string, t: string, c: char, y: string)
    requires SplitOn(t, c) == [[], [], y]
    ensures var p := SplitOn(x + t, c); |p| >= 2 && p[|p| - 2] == []
  {
    SplitOnPrefix(x, t, c);
  }

  /** The last two pieces of `x + ch + "z" + y`: the piece before the
      last `z` is empty when `ch` is another `z`, and ends in `ch`
      otherwise. */
  lemma LastPieces(x: string, ch: char, y: string)
    requires 'z' !in y
    ensures var p := SplitOn(x + ([ch] + "z" + y), 'z');
      && |p| >= 2
      && (ch == 'z' ==> p[|p| - 2] == [])
      && (ch != 'z' ==> |p[|p| - 2]| > 0 && p[|p| - 2][|p[|p| - 2]| - 1] == ch)
  {
    var tail := [ch] + "z" + y;
    SplitBeforeZ(ch, y);
    if ch == 'z' {
      PrefixThreePieces(x, tail, 'z', y);
    } else {
      PrefixTwoPieces(x, tail, 'z', [ch], y);
    }
  }

  /** Every name splits at its last `z`: with no `z` at all, or with
      nothing (or another `z`) just before the last one, the check raises
      IndexError; otherwise the format is new exactly when the character
      before the last `z` is a dot. */
  lemma IsNewFormatSpec(x: string, ch: char, y: string)
    requires 'z' !in y
    ensures IsNewFormat(y) == Failure(IndexError)
    ensures IsNewFormat("z" + y) == Failure(IndexError)
    ensures IsNewFormat(x + [ch] + "z" + y) == if ch == 'z' then Failure(IndexError) else Success(ch == '.')
  {
    assert IsNewFormat(y) == Failure(IndexError) by {
      SplitOnAbsent(y, 'z');
    }
    assert IsNewFormat("z" + y) == Failure(IndexError) by {
      SplitLeadingZ(y);
    }
    var name := x + ([ch] + "z" + y);
    assert x + [ch] + "z" + y == name;
    LastPieces(x, ch, y);
  }

  // ---------------------------------------------------------------------
  // _setup_halo_numbering

  /** The mapper between halo numbers and file indices that a keyword
      selects; the mapper classes themselves are not part of this model. */
  datatype NumberMapper =
    | Simple(start: int, count: nat)
    | LengthOrder(order: seq<int>, startIndex: int)
    | FromIds(ids: seq<int>)
    | AhfOwn

  /** The numbering AHF itself uses: the `ID` column when there is one,
      file order from 0 otherwise. */
  function OwnNumberMapper(ids: Option<seq<int>>, numHalos: nat): NumberMapper {
    if ids.Some? then FromIds(ids.value) else Simple(0, numHalos)
  }

  /** `_setup_halo_numbering(halo_numbers)`, given the `npart` column when
      the property table has one. `argsort` is `np.argsort` with its
      default kind, which is not stable: the model leaves the order of
      halos with equal `npart` to it. */
  function SetupHaloNumbering(keyword: string, numHalos: nat, npart: Option<seq<int>>, argsort: seq<int> -> seq<int>): Result<NumberMapper> {
    if keyword == "v1" then Success(Simple(1, numHalos))
    else if keyword == "file-order" then Success(Simple(0, numHalos))
    else if keyword == "length-order" || keyword == "length-order-v1" then
      if npart.None? then Failure(KeyError)
      else
        var order := argsort(IndexLists.Negated(npart.value));
        Success(LengthOrder(order, if keyword == "length-order-v1" then 1 else 0))
    else if keyword == "ahf" then Success(AhfOwn)
    else Failure(ValueError)
  }

  predicate KnownKeyword(keyword: string) {
    keyword in {"v1", "file-order", "length-order", "length-order-v1", "ahf"}
  }

  /** Exactly the five documented keywords are accepted; any other is a
      ValueError.  For any sort that behaves as `np.argsort`, the length
      orders list every halo once by non-increasing particle count,
      numbered from 0 or (for `-v1`) from 1; the order among halos of
      equal count is whatever the sort gives. */
  lemma SetupHaloNumberingSpec(keyword: string, numHalos: nat, npart: Option<seq<int>>, argsort: seq<int> -> seq<int>)
    ensures SetupHaloNumbering(keyword, numHalos, npart, argsort) == Failure(ValueError) <==> !KnownKeyword(keyword)
    ensures SetupHaloNumbering(keyword, numHalos, npart, argsort).Failure? <==>
      !KnownKeyword(keyword) || (npart.None? && (keyword == "length-order" || keyword == "length-order-v1"))
    ensures var r := SetupHaloNumbering(keyword, numHalos, npart, argsort);
      r.Success? && r.value.LengthOrder? ==> (r.value.startIndex == 1 <==> keyword == "length-order-v1")
    ensures var r := SetupHaloNumbering(keyword, numHalos, npart, argsort);
      Argsorts(argsort) && r.Success? && r.value.LengthOrder? ==>
        var o := r.value.order;
        && |o| == |npart.value|
        && (forall x :: 0 <= x < |npart.value| ==> x in o)
        && (forall i :: 0 <= i < |o| ==> 0 <= o[i] < |npart.value|)
        && (forall i, j :: 0 <= i < j < |o| ==> npart.value[o[i]] >= npart.value[o[j]])
  {
    var r := SetupHaloNumbering(keyword, numHalos, npart, argsort);
    if Argsorts(argsort) && r.Success? && r.value.LengthOrder? {
      var neg := IndexLists.Negated(npart.value);
      assert IsArgsort(neg, argsort(neg));
      var o := r.value.order;
      forall i, j | 0 <= i < j < |o| ensures npart.value[o[i]] >= npart.value[o[j]] {
        assert neg[o[i]] <= neg[o[j]];
      }
    }
  }

  // ---------------------------------------------------------------------
  // _load_ahf_halo_properties: the header line

  /** The length of the run of decimal digits that starts `s`. */
  function DigitRun(s: string): (n: nat)
    ensures n <= |s| && forall i :: 0 <= i < n ==> IsDigit(s[i])
    ensures n < |s| ==> !IsDigit(s[n])
  {
    if |s| == 0 || !IsDigit(s[0]) then 0 else 1 + DigitRun(s[1..])
  }

  /** Where a match of `\([0-9]*\)` that starts `s` ends, if there is one. */
  function CounterMatch(s: string): (r: Option<nat>)
    ensures r.Some? ==> 2 <= r.value <= |s|
  {
    if |s| == 0 || s[0] != '(' then None
    else
      var j := 1 + DigitRun(s[1..]);
      if j < |s| && s[j] == ')' then Some(j + 1) else None
  }

  /** `re.sub(r'\([0-9]*\)', '', field)`: scanning left to right, every
      parenthesised run of digits is deleted. */
  function StripCounter(s: string): string
    decreases |s|
  {
    if |s| == 0 then []
    else
      match CounterMatch(s)
      case Some(n) => StripCounter(s[n..])
      case None => [s[0]] + StripCounter(s[1..])
  }

  /** The keys of the header line: `#` removed, split on whitespace,
      counters stripped; new-format files drop an empty first key (and an
      empty header there is an IndexError). */
  function HeaderKeys(firstLine: string, newFormat: bool): Result<seq<string>> {
    var keys := StripAll(Split(Remove(firstLine, '#')));
    if !newFormat then Success(keys)
    else if |keys| == 0 then Failure(IndexError)
    else if keys[0] == "" then Success(keys[1..])
    else Success(keys)
  }

  /** A column title as AHF writes it: `name(k)`. */
  function Column(name: string, k: nat): string {
    name + "(" + ShowNat(k) + ")"
  }

  /** The column titles AHF writes for the names, numbered from 1. */
  function Columns(names: seq<string>): (cols: seq<string>)
    ensures |cols| == |names|
  {
    seq(|names|, k requires 0 <= k < |names| => Column(names[k], k + 1))
  }

  /** The header line AHF writes: `#` and the titles `name(1) name(2) ...`. */
  function HeaderLine(names: seq<string>): string {
    "#" + JoinSpace(Columns(names))
  }

  /** The keys before the new-format adjustment. */
  function StripAll(fields: seq<string>): (keys: seq<string>)
    ensures |keys| == |fields|
  {
    seq(|fields|, k requires 0 <= k < |fields| => StripCounter(fields[k]))
  }

  predicate PlainName(name: string) {
    IsToken(name) && '#' !in name && '(' !in name
  }

  lemma {:induction false} StripCounterOfColumn(name: string, k: nat)
    requires '(' !in name
    ensures StripCounter(Column(name, k)) == name
  {
    if |name| == 0 {
      var d := ShowNat(k);
      var s := "(" + d + ")";
      assert Column(name, k) == s;
      assert s[1..] == d + ")";
      DigitRunOf(d);
      assert CounterMatch(s) == Some(|s|);
      assert s[|s|..] == [];
    } else {
      var s := Column(name, k);
      assert s[0] == name[0];
      assert s[1..] == Column(name[1..], k);
      StripCounterOfColumn(name[1..], k);
    }
  }

  lemma {:induction false} DigitRunOf(d: string)
    requires forall i :: 0 <= i < |d| ==> IsDigit(d[i])
    ensures DigitRun(d + ")") == |d|
  {
    if |d| > 0 {
      assert (d + ")")[1..] == d[1..] + ")";
      DigitRunOf(d[1..]);
    }
  }

  lemma {:induction false} RemoveAbsent(s: string, c: char)
    requires c !in s
    ensures Remove(s, c) == s
  {
    if |s| > 0 {
      RemoveAbsent(s[1..], c);
      assert s == [s[0]] + s[1..];
    }
  }

  lemma {:induction false} NotInJoinSpace(ts: seq<string>, c: char)
    requires c != ' ' && forall k :: 0 <= k < |ts| ==> c !in ts[k]
    ensures c !in JoinSpace(ts)
  {
    if |ts| > 1 {
      NotInJoinSpace(ts[1..], c);
    }
  }

  lemma ColumnIsToken(name: string, k: nat)
    requires PlainName(name)
    ensures IsToken(Column(name, k)) && '#' !in Column(name, k)
  {
    var d := ShowNat(k);
    assert forall i :: 0 <= i < |d| ==> !IsSpace(d[i]) && d[i] != '#';
    var s := Column(name, k);
    assert forall i :: 0 <= i < |s| ==> s[i] in name || s[i] == '(' || s[i] == ')' || s[i] in d;
  }

  lemma ColumnsAreTokens(names: seq<string>)
    requires forall k :: 0 <= k < |names| ==> PlainName(names[k])
    ensures forall k :: 0 <= k < |names| ==> IsToken(Columns(names)[k]) && '#' !in Columns(names)[k]
  {
    forall k | 0 <= k < |names| ensures IsToken(Columns(names)[k]) && '#' !in Columns(names)[k] {
      ColumnIsToken(names[k], k + 1);
    }
  }

  lemma HeaderFields(names: seq<string>)
    requires forall k :: 0 <= k < |names| ==> PlainName(names[k])
    ensures Split(Remove(HeaderLine(names), '#')) == Columns(names)
  {
    var cols := Columns(names);
    ColumnsAreTokens(names);
    NotInJoinSpace(cols, '#');
    var body := JoinSpace(cols);
    RemoveAbsent(body, '#');
    assert HeaderLine(names) == "#" + body;
    assert ("#" + body)[1..] == body;
    assert Remove("#" + body, '#') == Remove(body, '#');
    SplitJoin(cols);
  }

  lemma StripColumns(names: seq<string>)
    requires forall k :: 0 <= k < |names| ==> PlainName(names[k])
    ensures StripAll(Columns(names)) == names
  {
    forall k | 0 <= k < |names| ensures StripAll(Columns(names))[k] == names[k] {
      StripCounterOfColumn(names[k], k + 1);
    }
  }

  /** Round trip: the header line AHF writes for the column names gives
      those names back as keys, in both format revisions. */
  lemma HeaderKeysOfHeaderLine(names: seq<string>, newFormat: bool)
    requires |names| > 0 && forall k :: 0 <= k < |names| ==> PlainName(names[k])
    ensures HeaderKeys(HeaderLine(names), newFormat) == Success(names)
  {
    HeaderFields(names);
    StripColumns(names);
  }

  // ---------------------------------------------------------------------
  // _load_ahf_halo_properties: the value lines

  /** A property value: an int, or a float kept as its text (the value
      of a float is not modelled). */
  datatype Value = IntValue(i: int) | FloatValue(text: string)

  /** The test that sends a token to `float` instead of `int`. */
  predicate LooksFloat(tok: string) {
    Contains(tok, ".") || Contains(tok, "e") || Contains(tok, "nan") || Contains(tok, "inf")
  }

  function ParseValue(tok: string): Result<Value> {
    if LooksFloat(tok) then Success(FloatValue(tok))
    else
      match ParseInt(tok)
      case Success(i) => Success(IntValue(i))
      case Failure(e) => Failure(e)
  }

  /** The values of one line, the first bad token raising ValueError. */
  function ParseValues(toks: seq<string>): (r: Result<seq<Value>>)
    ensures r.Success? ==> |r.value| == |toks|
    ensures r.Failure? ==> r.error == ValueError
  {
    if |toks| == 0 then Success([])
    else
      match ParseValues(toks[..|toks| - 1])
      case Failure(e) => Failure(e)
      case Success(init) =>
        match ParseValue(toks[|toks| - 1])
        case Failure(_) => Failure(ValueError)
        case Success(v) => Success(init + [v])
  }

  /** One data line; old-format files carry a leading column that is
      dropped. */
  function LineValues(line: string, newFormat: bool): Result<seq<Value>> {
    match ParseValues(Split(line))
    case Failure(e) => Failure(e)
    case Success(vs) => Success(if newFormat || |vs| == 0 then vs else vs[1..])
  }

  lemma {:induction false} NotContains(s: string, sub: string)
    requires |sub| > 0 && sub[0] !in s
    ensures !Contains(s, sub)
    decreases |s|
  {
    if |s| > 0 {
      NotContains(s[1..], sub);
    }
  }

  /** A token written by `str` of an int is read back as that int;
      nothing written that way is taken for a float. */
  lemma ParseValueOfInt(n: int)
    ensures !LooksFloat(ShowInt(n))
    ensures ParseValue(ShowInt(n)) == Success(IntValue(n))
  {
    var s := ShowInt(n);
    var d := ShowNat(if n < 0 then -n else n);
    assert forall i :: 0 <= i < |d| ==> IsDigit(d[i]);
    assert forall x :: x in s ==> x == '-' || IsDigit(x);
    NotContains(s, ".");
    NotContains(s, "e");
    NotContains(s, "nan");
    NotContains(s, "inf");
    ParseShowInt(n);
  }

  // ---------------------------------------------------------------------
  // _load_ahf_halo_properties: the table

  /** The property table of the `.halos` file.  `numHalos` is the number
      of lines after the header, blank ones included. */
  datatype Properties = Properties(keys: seq<string>, columns: map<string, seq<Value>>, numHalos: nat)

  /** `{k: [] for k in keys}` */
  function EmptyColumns(keys: seq<string>): (m: map<string, seq<Value>>)
    ensures forall k :: k in m <==> k in keys
  {
    map k | k in keys :: []
  }

  /** The first `n` pairs of `zip(keys, values)`, each value appended to
      its key's list. */
  function AppendRow(cols: map<string, seq<Value>>, keys: seq<string>, values: seq<Value>, n: nat): (r: map<string, seq<Value>>)
    requires n <= |keys| && n <= |values|
    requires forall k :: k in keys ==> k in cols
    ensures r.Keys == cols.Keys
  {
    if n == 0 then cols
    else
      var c := AppendRow(cols, keys, values, n - 1);
      c[keys[n - 1] := c[keys[n - 1]] + [values[n - 1]]]
  }

  function Min(a: nat, b: nat): nat {
    if a <= b then a else b
  }

  /** The columns after the rows, one after the other. */
  function AppendRows(cols: map<string, seq<Value>>, keys: seq<string>, rows: seq<seq<Value>>): (r: map<string, seq<Value>>)
    requires forall k :: k in keys ==> k in cols
    ensures r.Keys == cols.Keys
  {
    if |rows| == 0 then cols
    else
      var c := AppendRows(cols, keys, rows[..|rows| - 1]);
      var row := rows[|rows| - 1];
      AppendRow(c, keys, row, Min(|keys|, |row|))
  }

  /** Every line parsed, the first bad one raising. */
  function ParseLines(lines: seq<string>, newFormat: bool): (r: Result<seq<seq<Value>>>)
    ensures r.Success? ==> |r.value| == |lines|
  {
    if |lines| == 0 then Success([])
    else
      match ParseLines(lines[..|lines| - 1], newFormat)
      case Failure(e) => Failure(e)
      case Success(init) =>
        match LineValues(lines[|lines| - 1], newFormat)
        case Failure(e) => Failure(e)
        case Success(vs) => Success(init + [vs])
  }

  /** `_load_ahf_halo_properties` on the header line and the data lines. */
  function HaloProperties(firstLine: string, lines: seq<string>, newFormat: bool): Result<Properties> {
    match HeaderKeys(firstLine, newFormat)
    case Failure(e) => Failure(e)
    case Success(keys) =>
      match ParseLines(lines, newFormat)
      case Failure(e) => Failure(e)
      case Success(rows) => Success(Properties(keys, AppendRows(EmptyColumns(keys), keys, rows), |lines|))
  }

  /** The same, as the source computes it: one pass over the lines,
      appending each value to its key's list. */
  method LoadHaloProperties(firstLine: string, lines: seq<string>, newFormat: bool) returns (r: Result<Properties>)
    ensures r == HaloProperties(firstLine, lines, newFormat)
  {
    var header := HeaderKeys(firstLine, newFormat);
    if header.Failure? {
      return Failure(header.error);
    }
    var keys := header.value;
    var table := LoadColumns(keys, lines, newFormat);
    match table
    case Failure(e) =>
      r := Failure(e);
    case Success(cols) =>
      r := Success(Properties(keys, cols, |lines|));
  }

  /** The loop over the data lines. */
  method LoadColumns(keys: seq<string>, lines: seq<string>, newFormat: bool) returns (r: Result<map<string, seq<Value>>>)
    ensures r == match ParseLines(lines, newFormat)
      case Failure(e) => Failure(e)
      case Success(rows) => Success(AppendRows(EmptyColumns(keys), keys, rows))
  {
    var cols := EmptyColumns(keys);
    ghost var rows: seq<seq<Value>> := [];
    var t := 0;
    while t < |lines|
      invariant 0 <= t <= |lines|
      invariant ParseLines(lines[..t], newFormat) == Success(rows)
      invariant cols == AppendRows(EmptyColumns(keys), keys, rows)
    {
      var values := LineValues(lines[t], newFormat);
      if values.Failure? {
        ParseLinesFailLater(lines, newFormat, t + 1);
        return Failure(values.error);
      }
      var vs := values.value;
      ParseLinesStep(lines, newFormat, t, rows, vs);
      AppendRowsStep(keys, rows, vs);
      cols := AppendValues(cols, keys, vs);
      rows := rows + [vs];
      t := t + 1;
    }
    assert lines[..t] == lines;
    r := Success(cols);
  }

  /** `for k, v in zip(keys, values): halo_props[k].append(v)` */
  method AppendValues(cols: map<string, seq<Value>>, keys: seq<string>, vs: seq<Value>) returns (c: map<string, seq<Value>>)
    requires forall k :: k in keys ==> k in cols
    ensures c == AppendRow(cols, keys, vs, Min(|keys|, |vs|))
  {
    var n := Min(|keys|, |vs|);
    c := cols;
    var j := 0;
    while j < n
      invariant 0 <= j <= n
      invariant c == AppendRow(cols, keys, vs, j)
    {
      c := c[keys[j] := c[keys[j]] + [vs[j]]];
      j := j + 1;
    }
  }

  lemma ParseLinesStep(lines: seq<string>, newFormat: bool, t: nat, rows: seq<seq<Value>>, vs: seq<Value>)
    requires t < |lines|
    requires ParseLines(lines[..t], newFormat) == Success(rows)
    requires LineValues(lines[t], newFormat) == Success(vs)
    ensures ParseLines(lines[..t + 1], newFormat) == Success(rows + [vs])
  {
    assert lines[..t + 1][..t] == lines[..t];
  }

  lemma AppendRowsStep(keys: seq<string>, rows: seq<seq<Value>>, vs: seq<Value>)
    ensures AppendRows(EmptyColumns(keys), keys, rows + [vs])
      == AppendRow(AppendRows(EmptyColumns(keys), keys, rows), keys, vs, Min(|keys|, |vs|))
  {
    assert (rows + [vs])[..|rows|] == rows;
  }

  lemma {:induction false} ParseLinesFailLater(lines: seq<string>, newFormat: bool, j: nat)
    requires 0 < j <= |lines|
    requires ParseLines(lines[..j - 1], newFormat).Success? && LineValues(lines[j - 1], newFormat).Failure?
    ensures ParseLines(lines, newFormat).Failure?
    ensures ParseLines(lines, newFormat).error == LineValues(lines[j - 1], newFormat).error
  {
    assert lines[..j][..j - 1] == lines[..j - 1];
    ParseLinesFailsFrom(lines, newFormat, j);
  }

  lemma {:induction false} ParseLinesFailsFrom(lines: seq<string>, newFormat: bool, j: nat)
    requires 0 < j <= |lines|
    requires ParseLines(lines[..j], newFormat).Failure?
    ensures ParseLines(lines, newFormat) == ParseLines(lines[..j], newFormat)
    decreases |lines| - j
  {
    if j == |lines| {
      assert lines[..j] == lines;
    } else {
      assert lines[..j + 1][..j] == lines[..j];
      ParseLinesFailsFrom(lines, newFormat, j + 1);
    }
  }

  /** Column `j` of the rows: the `j`-th value of every row long enough
      to have one. */
  function ColumnOf(rows: seq<seq<Value>>, j: nat): seq<Value> {
    if |rows| == 0 then []
    else
      var row := rows[|rows| - 1];
      ColumnOf(rows[..|rows| - 1], j) + (if j < |row| then [row[j]] else [])
  }

  lemma {:induction false} AppendRowAt(cols: map<string, seq<Value>>, keys: seq<string>, values: seq<Value>, n: nat, j: nat)
    requires n <= |keys| && n <= |values|
    requires forall k :: k in keys ==> k in cols
    requires Distinct(keys) && j < |keys|
    ensures AppendRow(cols, keys, values, n)[keys[j]] == cols[keys[j]] + (if j < n then [values[j]] else [])
  {
    if n > 0 {
      AppendRowAt(cols, keys, values, n - 1, j);
    }
  }

  /** With distinct keys, each key's list is its column of the table:
      one entry per data line that reaches that column, in file order. */
  lemma {:induction false} ColumnsOfDistinctKeys(keys: seq<string>, rows: seq<seq<Value>>, j: nat)
    requires Distinct(keys) && j < |keys|
    ensures AppendRows(EmptyColumns(keys), keys, rows)[keys[j]] == ColumnOf(rows, j)
  {
    if |rows| > 0 {
      var init := rows[..|rows| - 1];
      var row := rows[|rows| - 1];
      ColumnsOfDistinctKeys(keys, init, j);
      AppendRowAt(AppendRows(EmptyColumns(keys), keys, init), keys, row, Min(|keys|, |row|), j);
    }
  }

  /** The table has a list for every key and counts one halo per line. */
  lemma HaloPropertiesSpec(firstLine: string, lines: seq<string>, newFormat: bool)
    requires HaloProperties(firstLine, lines, newFormat).Success?
    ensures var p := HaloProperties(firstLine, lines, newFormat).value;
      && p.numHalos == |lines|
      && (forall k :: k in p.columns <==> k in p.keys)
      && HeaderKeys(firstLine, newFormat) == Success(p.keys)
      && (Distinct(p.keys) ==> forall j :: 0 <= j < |p.keys| ==>
            p.columns[p.keys[j]] == ColumnOf(ParseLines(lines, newFormat).value, j))
  {
    var p := HaloProperties(firstLine, lines, newFormat).value;
    if Distinct(p.keys) {
      forall j | 0 <= j < |p.keys|
        ensures p.columns[p.keys[j]] == ColumnOf(ParseLines(lines, newFormat).value, j)
      {
        ColumnsOfDistinctKeys(p.keys, ParseLines(lines, newFormat).value, j);
      }
    }
  }

  // ---------------------------------------------------------------------
  // _load_ahf_substructure

  /** The two number mappers the loop consults: AHF's own
      `number_to_index` and the catalogue's `index_to_number`, as finite
      maps (a number the map lacks raises KeyError). */
  datatype Mappers = Mappers(ownIndex: map<int, nat>, number: map<nat, int>)

  /** One parsed pair of lines: the halo's file index and catalogue
      number, and its children's indices and numbers. */
  datatype Entry = Entry(haloIndex: nat, haloNumber: int, childIndices: seq<nat>, childNumbers: seq<int>)

  function ParseInts(toks: seq<string>): (r: Result<seq<int>>)
    ensures r.Success? ==> |r.value| == |toks|
    ensures r.Failure? ==> r.error == ValueError
  {
    if |toks| == 0 then Success([])
    else
      match ParseInts(toks[..|toks| - 1])
      case Failure(e) => Failure(e)
      case Success(init) =>
        match ParseInt(toks[|toks| - 1])
        case Failure(e) => Failure(e)
        case Success(v) => Success(init + [v])
  }

  /** `[m[x] for x in xs]`: each entry looked up in the map, the first
      missing one raising KeyError. */
  function LookUpAll<K(==), V>(m: map<K, V>, xs: seq<K>): (r: Result<seq<V>>)
    ensures r.Success? ==> |r.value| == |xs| && forall k :: 0 <= k < |xs| ==> xs[k] in m && r.value[k] == m[xs[k]]
    ensures r.Failure? <==> exists k :: 0 <= k < |xs| && xs[k] !in m
    ensures r.Failure? ==> r.error == KeyError
  {
    if |xs| == 0 then Success([])
    else if xs[0] !in m then Failure(KeyError)
    else
      match LookUpAll(m, xs[1..])
      case Failure(e) =>
        assert exists k :: 0 <= k < |xs| - 1 && xs[1..][k] !in m;
        var k :| 0 <= k < |xs| - 1 && xs[1..][k] !in m;
        assert xs[k + 1] !in m;
        Failure(e)
      case Success(rest) => Success([m[xs[0]]] + rest)
  }

  /** The halo line must be exactly two integers (the halo's AHF number
      and its subhalo count); the child line is a list of AHF numbers. */
  function ParseEntry(haloLine: string, childLine: string, m: Mappers): Result<Entry> {
    var ht := Split(haloLine);
    var hv := ParseInts(ht);
    if hv.Failure? || |ht| != 2 then Failure(ValueError)
    else
      var haloId := hv.value[0];
      if haloId !in m.ownIndex then Failure(KeyError)
      else
        var index := m.ownIndex[haloId];
        if index !in m.number then Failure(KeyError)
        else
          match ParseInts(Split(childLine))
          case Failure(e) => Failure(e)
          case Success(childIds) =>
            match LookUpAll(m.ownIndex, childIds)
            case Failure(e) => Failure(e)
            case Success(childIndices) =>
              match LookUpAll(m.number, childIndices)
              case Failure(e) => Failure(e)
              case Success(childNumbers) => Success(Entry(index, m.number[index], childIndices, childNumbers))
  }

  /** The `children` list and `parent` array as the loop leaves them. */
  datatype Substructure = Substructure(children: seq<seq<int>>, parent: seq<int>)

  /** The state when the loop stops, and the exception it stops with. */
  datatype Progress = Progress(state: Substructure, error: Option<Error>)

  function Initial(numHalos: nat): (s: Substructure)
    ensures |s.children| == numHalos && |s.parent| == numHalos
  {
    Substructure(seq(numHalos, _ => []), seq(numHalos, _ => -1))
  }

  /** `for child_index in children_index: parent[child_index] = number` */
  function WriteParents(parent: seq<int>, idxs: seq<nat>, number: int): (r: (seq<int>, Option<Error>))
    ensures |r.0| == |parent|
    ensures r.1.Some? ==> r.1.value == IndexError
    decreases |idxs|
  {
    if |idxs| == 0 then (parent, None)
    else if idxs[0] >= |parent| then (parent, Some(IndexError))
    else WriteParents(parent[idxs[0] := number], idxs[1..], number)
  }

  /** The assignments of one pair of lines. */
  function Apply(s: Substructure, e: Entry): (p: Progress)
    ensures |p.state.children| == |s.children| && |p.state.parent| == |s.parent|
  {
    if e.haloIndex >= |s.children| then Progress(s, Some(IndexError))
    else
      var children := s.children[e.haloIndex := e.childNumbers];
      var w := WriteParents(s.parent, e.childIndices, e.haloNumber);
      Progress(Substructure(children, w.0), w.1)
  }

  /** `zip(lines[::2], lines[1::2])`: the halo lines with the child
      lines after them; an unpaired last line is dropped. */
  function Pairs(lines: seq<string>): (ps: seq<(string, string)>)
    ensures |ps| == |lines| / 2
  {
    seq(|lines| / 2, p requires 0 <= p < |lines| / 2 => (lines[2 * p], lines[2 * p + 1]))
  }

  /** The loop over the pairs, stopping at the first exception. */
  function Run(start: Substructure, pairs: seq<(string, string)>, m: Mappers): (p: Progress)
    ensures |p.state.children| == |start.children| && |p.state.parent| == |start.parent|
  {
    if |pairs| == 0 then Progress(start, None)
    else
      var p := Run(start, pairs[..|pairs| - 1], m);
      if p.error.Some? then p else Step(p.state, pairs[|pairs| - 1].0, pairs[|pairs| - 1].1, m)
  }

  /** One turn of the loop: parse the pair, then make its assignments. */
  function Step(s: Substructure, haloLine: string, childLine: string, m: Mappers): (p: Progress)
    ensures |p.state.children| == |s.children| && |p.state.parent| == |s.parent|
  {
    match ParseEntry(haloLine, childLine, m)
    case Failure(e) => Progress(s, Some(e))
    case Success(entry) => Apply(s, entry)
  }

  /** The lines after the optional count line: the first line is skipped
      unless it has exactly two tokens; an empty file is an IndexError. */
  function PairedLines(lines: seq<string>): Result<seq<string>> {
    if |lines| == 0 then Failure(IndexError)
    else if |Split(lines[0])| != 2 then Success(lines[1..])
    else Success(lines)
  }

  /** `_load_ahf_substructure`: `None` when the file is empty (the
      IndexError comes before the lists are installed); otherwise the
      installed lists, which keep what the loop wrote before any
      exception. */
  function Substructures(lines: seq<string>, numHalos: nat, m: Mappers): (Option<Substructure>, Option<Error>) {
    match PairedLines(lines)
    case Failure(e) => (None, Some(e))
    case Success(ls) =>
      var p := Run(Initial(numHalos), Pairs(ls), m);
      (Some(p.state), p.error)
  }

  /** The same, as the source computes it, with `parent` an array filled
      with -1 and `children` a list. */
  method LoadSubstructure(lines: seq<string>, numHalos: nat, m: Mappers)
    returns (installed: Option<Substructure>, error: Option<Error>)
    ensures (installed, error) == Substructures(lines, numHalos, m)
  {
    var pl := PairedLines(lines);
    if pl.Failure? {
      return None, Some(pl.error);
    }
    var pairs := Pairs(pl.value);
    var children: seq<seq<int>> := seq(numHalos, _ => []);
    var parent := NewParent(numHalos);
    var n := 0;
    while n < |pairs|
      invariant 0 <= n <= |pairs|
      invariant Run(Initial(numHalos), pairs[..n], m) == Progress(Substructure(children, parent[..]), None)
    {
      var p;
      RunNext(Initial(numHalos), pairs, n, m);
      children, p := StepInPlace(children, parent, pairs[n].0, pairs[n].1, m);
      if p.Some? {
        RunStopped(Initial(numHalos), pairs, n + 1, m);
        return Some(Substructure(children, parent[..])), p;
      }
      n := n + 1;
    }
    assert pairs[..n] == pairs;
    installed, error := Some(Substructure(children, parent[..])), None;
  }

  lemma RunNext(start: Substructure, pairs: seq<(string, string)>, n: nat, m: Mappers)
    requires n < |pairs|
    requires Run(start, pairs[..n], m).error.None?
    ensures Run(start, pairs[..n + 1], m) == Step(Run(start, pairs[..n], m).state, pairs[n].0, pairs[n].1, m)
  {
    assert pairs[..n + 1][..n] == pairs[..n];
  }

  /** `-np.ones(num_halos, dtype=int)` */
  method NewParent(numHalos: nat) returns (parent: array<int>)
    ensures fresh(parent) && parent[..] == Initial(numHalos).parent
  {
    parent := new int[numHalos];
    forall i | 0 <= i < numHalos {
      parent[i] := -1;
    }
  }

  /** One turn of the loop on the list and the array. */
  method StepInPlace(children: seq<seq<int>>, parent: array<int>, haloLine: string, childLine: string, m: Mappers)
    returns (children': seq<seq<int>>, error: Option<Error>)
    modifies parent
    ensures Progress(Substructure(children', parent[..]), error) == Step(Substructure(children, old(parent[..])), haloLine, childLine, m)
  {
    var entry := ParseEntry(haloLine, childLine, m);
    if entry.Failure? {
      return children, Some(entry.error);
    }
    var e := entry.value;
    if e.haloIndex >= |children| {
      return children, Some(IndexError);
    }
    children' := children[e.haloIndex := e.childNumbers];
    var ok := WriteParentsInPlace(parent, e.childIndices, e.haloNumber);
    error := if ok then None else Some(IndexError);
  }

  /** The ordered writes to `parent`; false when one raises IndexError. */
  method WriteParentsInPlace(parent: array<int>, idxs: seq<nat>, number: int) returns (ok: bool)
    modifies parent
    ensures (parent[..], if ok then None else Some(IndexError)) == WriteParents(old(parent[..]), idxs, number)
  {
    var t := 0;
    while t < |idxs|
      invariant 0 <= t <= |idxs|
      invariant WriteParents(old(parent[..]), idxs, number) == WriteParents(parent[..], idxs[t..], number)
    {
      if idxs[t] >= parent.Length {
        return false;
      }
      assert idxs[t..][1..] == idxs[t + 1..];
      parent[idxs[t]] := number;
      t := t + 1;
    }
    ok := true;
  }

  /** Once a step raises, the run over more pairs stops there. */
  lemma {:induction false} RunStopped(start: Substructure, pairs: seq<(string, string)>, n: nat, m: Mappers)
    requires 0 < n <= |pairs|
    requires Run(start, pairs[..n], m).error.Some?
    ensures Run(start, pairs, m) == Run(start, pairs[..n], m)
    decreases |pairs| - n
  {
    if n == |pairs| {
      assert pairs[..n] == pairs;
    } else {
      assert pairs[..n + 1][..n] == pairs[..n];
      RunStopped(start, pairs, n + 1, m);
    }
  }

  /** Which halo number `parent[c]` ends with: that of the last entry
      listing `c` among its children, or -1. */
  function LastParent(entries: seq<Entry>, c: nat): int {
    if |entries| == 0 then -1
    else if c in entries[|entries| - 1].childIndices then entries[|entries| - 1].haloNumber
    else LastParent(entries[..|entries| - 1], c)
  }

  /** Which list `children[h]` ends with: that of the last entry for
      halo index `h`, or the empty list. */
  function LastChildren(entries: seq<Entry>, h: nat): seq<int> {
    if |entries| == 0 then []
    else if entries[|entries| - 1].haloIndex == h then entries[|entries| - 1].childNumbers
    else LastChildren(entries[..|entries| - 1], h)
  }

  /** The entries of the pairs, if every one parses. */
  function Entries(pairs: seq<(string, string)>, m: Mappers): (r: Result<seq<Entry>>)
    ensures r.Success? ==> |r.value| == |pairs|
  {
    if |pairs| == 0 then Success([])
    else
      match Entries(pairs[..|pairs| - 1], m)
      case Failure(e) => Failure(e)
      case Success(init) =>
        match ParseEntry(pairs[|pairs| - 1].0, pairs[|pairs| - 1].1, m)
        case Failure(e) => Failure(e)
        case Success(entry) => Success(init + [entry])
  }

  lemma {:induction false} WriteParentsSpec(parent: seq<int>, idxs: seq<nat>, number: int)
    requires WriteParents(parent, idxs, number).1.None?
    ensures forall c :: 0 <= c < |parent| ==>
      WriteParents(parent, idxs, number).0[c] == if c in idxs then number else parent[c]
    decreases |idxs|
  {
    if |idxs| > 0 {
      WriteParentsSpec(parent[idxs[0] := number], idxs[1..], number);
      assert forall c :: c in idxs <==> c == idxs[0] || c in idxs[1..];
    }
  }

  /** A run that raises nothing has parsed every pair, and leaves each
      halo's parent as the last pair listing it as a child (or -1) and
      each halo's children as its last pair's list. */
  lemma {:induction false} RunSpec(numHalos: nat, pairs: seq<(string, string)>, m: Mappers)
    requires Run(Initial(numHalos), pairs, m).error.None?
    ensures Entries(pairs, m).Success?
    ensures var s := Run(Initial(numHalos), pairs, m).state;
      var es := Entries(pairs, m).value;
      && (forall c :: 0 <= c < numHalos ==> s.parent[c] == LastParent(es, c))
      && (forall h :: 0 <= h < numHalos ==> s.children[h] == LastChildren(es, h))
  {
    if |pairs| > 0 {
      var init := pairs[..|pairs| - 1];
      RunSpec(numHalos, init, m);
      var prev := Run(Initial(numHalos), init, m).state;
      var e := ParseEntry(pairs[|pairs| - 1].0, pairs[|pairs| - 1].1, m).value;
      var es := Entries(pairs, m).value;
      assert es[..|es| - 1] == Entries(init, m).value;
      WriteParentsSpec(prev.parent, e.childIndices, e.haloNumber);
    }
  }

  /** For a substructure file whose loop raises nothing, `parent[c]` is
      the number of the last halo listing `c` as a child and -1 for a
      halo nobody lists, and `children[h]` is the list of the last pair
      for halo `h`. */
  lemma SubstructuresSpec(lines: seq<string>, numHalos: nat, m: Mappers)
    requires Substructures(lines, numHalos, m).1.None?
    ensures |lines| > 0
    ensures var pairs := Pairs(PairedLines(lines).value);
      && Substructures(lines, numHalos, m).0.Some?
      && Entries(pairs, m).Success?
      && var s := Substructures(lines, numHalos, m).0.value;
         var es := Entries(pairs, m).value;
         && |s.parent| == numHalos && |s.children| == numHalos
         && (forall c :: 0 <= c < numHalos ==> s.parent[c] == LastParent(es, c))
         && (forall h :: 0 <= h < numHalos ==> s.children[h] == LastChildren(es, h))
  {
    RunSpec(numHalos, Pairs(PairedLines(lines).value), m);
  }
}

/** Reading the scenario text: one object per line (`sat`, `user` or
    `interferer`, an identifier and three coordinates); comment and blank lines
    are skipped, and any other line fails the whole load. */
module ScenarioReader {
  import opened Geometry
  import opened Optional

  // ---------------------------------------------------------------------------
  // Whitespace, tokens and substrings, with Python's string semantics

  /** The characters Python's `str.isspace` accepts, which `split()` and `strip()` remove. */
  predicate IsSpace(ch: char)
  {
    var n := ch as int;
    n == 0x20 || 0x09 <= n <= 0x0D || 0x1C <= n <= 0x1F || n == 0x85 || n == 0xA0 ||
    n == 0x1680 || 0x2000 <= n <= 0x200A || n == 0x2028 || n == 0x2029 ||
    n == 0x202F || n == 0x205F || n == 0x3000
  }

  /** `w` holds no whitespace. */
  predicate NoSpace(w: string)
  {
    forall i | 0 <= i < |w| :: !IsSpace(w[i])
  }

  /** `line.strip() == ""`: the line is empty or all whitespace. */
  predicate IsBlank(line: string)
  {
    forall i | 0 <= i < |line| :: IsSpace(line[i])
  }

  /** Length of the run of non-whitespace characters `s` starts with. */
  function WordLength(s: string): (n: nat)
    ensures n <= |s| && NoSpace(s[..n])
    ensures n < |s| ==> IsSpace(s[n])
    ensures s != [] && !IsSpace(s[0]) ==> 1 <= n
  {
    if s == [] || IsSpace(s[0]) then 0 else 1 + WordLength(s[1..])
  }

  /** `s.split()`: the maximal runs of non-whitespace characters, in order. */
  function Split(s: string): (words: seq<string>)
    ensures forall k | 0 <= k < |words| :: words[k] != [] && NoSpace(words[k])
    decreases |s|
  {
    if s == [] then []
    else if IsSpace(s[0]) then Split(s[1..])
    else
      var n := WordLength(s);
      [s[..n]] + Split(s[n..])
  }

  /** `" ".join(words)`. */
  function Join(words: seq<string>): string
  {
    if words == [] then []
    else if |words| == 1 then words[0]
    else words[0] + " " + Join(words[1..])
  }

  /** `pat` occurs in `s` starting at index `i`. */
  predicate OccursAt(s: string, pat: string, i: nat)
  {
    i + |pat| <= |s| && s[i..i + |pat|] == pat
  }

  /** An occurrence in the tail of `s` is an occurrence in `s`, one place later. */
  lemma OccursInTail(s: string, pat: string)
    requires s != []
    ensures forall i: nat :: OccursAt(s[1..], pat, i) <==> OccursAt(s, pat, i + 1)
  {
    forall i: nat
      ensures OccursAt(s[1..], pat, i) <==> OccursAt(s, pat, i + 1)
    {
      if i + 1 + |pat| <= |s| {
        assert s[1..][i..i + |pat|] == s[i + 1..i + 1 + |pat|];
      }
    }
  }

  /** `pat in s`: scanning from the left, `pat` matches at some position. */
  predicate Contains(s: string, pat: string)
    ensures Contains(s, pat) <==> exists i: nat :: OccursAt(s, pat, i)
    decreases |s|
  {
    if OccursAt(s, pat, 0) then true
    else if s == [] then false
    else
      OccursInTail(s, pat);
      assert forall j: nat | OccursAt(s, pat, j) :: j > 0 && OccursAt(s[1..], pat, j - 1);
      Contains(s[1..], pat)
  }

  /** A line is blank exactly when it has no token. */
  lemma {:induction false} BlankIffNoWords(line: string)
    ensures IsBlank(line) <==> Split(line) == []
    decreases |line|
  {
    if line != [] {
      if IsSpace(line[0]) {
        BlankIffNoWords(line[1..]);
        assert IsBlank(line) <==> IsBlank(line[1..]) by {
          if IsBlank(line[1..]) {
            forall i | 0 <= i < |line| ensures IsSpace(line[i]) {
              if i > 0 { assert line[i] == line[1..][i - 1]; }
            }
          }
        }
      } else {
        assert !IsBlank(line);
      }
    }
  }

  /** A word followed by nothing or by whitespace is the first token. */
  lemma {:induction false} WordLengthOfWord(w: string, rest: string)
    requires NoSpace(w)
    requires rest == [] || IsSpace(rest[0])
    ensures WordLength(w + rest) == |w|
    decreases |w|
  {
    if w != [] {
      assert (w + rest)[1..] == w[1..] + rest;
      WordLengthOfWord(w[1..], rest);
    } else {
      assert w + rest == rest;
    }
  }

  /** Splitting words joined by single spaces gives the words back. */
  lemma {:induction false} SplitJoin(words: seq<string>)
    requires forall k | 0 <= k < |words| :: words[k] != [] && NoSpace(words[k])
    ensures Split(Join(words)) == words
    decreases |words|
  {
    if words != [] {
      var w := words[0];
      var rest := if |words| == 1 then [] else " " + Join(words[1..]);
      assert Join(words) == w + rest;
      WordLengthOfWord(w, rest);
      assert (w + rest)[..|w|] == w;
      assert (w + rest)[|w|..] == rest;
      if |words| > 1 {
        SplitJoin(words[1..]);
        assert rest[1..] == Join(words[1..]);
        assert Split(rest) == Split(Join(words[1..]));
      }
    }
  }

  // ---------------------------------------------------------------------------
  // One object line

  datatype Kind = Sat | User | Interferer

  /** The keyword that starts a line of this kind. */
  function Keyword(kind: Kind): string
  {
    match kind
    case Sat => "sat"
    case User => "user"
    case Interferer => "interferer"
  }

  /** What a line of kind `kind` yields: its identifier and position, or `None`
      when the keyword is wrong, the line has not exactly five tokens, or a
      coordinate does not parse.  `parseFloat` stands for Python's `float`. */
  function ParseObject(kind: Kind, line: string, parseFloat: string -> Option<real>): (r: Option<(string, Vector3)>)
    requires Split(line) != []
    ensures r.Some? <==>
      Split(line)[0] == Keyword(kind) && |Split(line)| == 5 &&
      parseFloat(Split(line)[2]).Some? && parseFloat(Split(line)[3]).Some? && parseFloat(Split(line)[4]).Some?
    ensures r.Some? ==>
      r.value.0 == Split(line)[1] &&
      r.value.1 == Vector3(parseFloat(Split(line)[2]).value, parseFloat(Split(line)[3]).value,
                           parseFloat(Split(line)[4]).value)
  {
    var parts := Split(line);
    if parts[0] != Keyword(kind) || |parts| != 5 then None
    else
      var x, y, z := parseFloat(parts[2]), parseFloat(parts[3]), parseFloat(parts[4]);
      if x.None? || y.None? || z.None? then None
      else Some((parts[1], Vector3(x.value, y.value, z.value)))
  }

  /** The line an object of kind `kind` is written as: keyword, identifier and
      the three coordinate texts, separated by single spaces. */
  function ObjectLine(kind: Kind, ident: string, xs: string, ys: string, zs: string): string
  {
    Join([Keyword(kind), ident, xs, ys, zs])
  }

  /** Trailing whitespace does not change the first token's length. */
  lemma {:induction false} WordLengthTrailing(s: string, t: string)
    requires IsBlank(t)
    ensures WordLength(s + t) == WordLength(s)
    decreases |s|
  {
    if s == [] {
      assert s + t == t;
    } else if !IsSpace(s[0]) {
      assert (s + t)[1..] == s[1..] + t;
      WordLengthTrailing(s[1..], t);
    }
  }

  /** Trailing whitespace, such as the newline a line read from a file keeps,
      does not change the tokens. */
  lemma {:induction false} SplitTrailing(s: string, t: string)
    requires IsBlank(t)
    ensures Split(s + t) == Split(s)
    decreases |s|
  {
    if s == [] {
      assert s + t == t;
      BlankIffNoWords(t);
    } else if IsSpace(s[0]) {
      assert (s + t)[1..] == s[1..] + t;
      SplitTrailing(s[1..], t);
    } else {
      var n := WordLength(s);
      WordLengthTrailing(s, t);
      assert (s + t)[..n] == s[..n];
      assert (s + t)[n..] == s[n..] + t;
      SplitTrailing(s[n..], t);
    }
  }

  /** A written object line, followed by any whitespace ending (nothing, or the
      newline a line read from a file keeps), reads back as the same identifier
      and position. */
  lemma ParseObjectLine(kind: Kind, ident: string, xs: string, ys: string, zs: string, ending: string,
                        parseFloat: string -> Option<real>)
    requires ident != [] && NoSpace(ident)
    requires xs != [] && NoSpace(xs) && ys != [] && NoSpace(ys) && zs != [] && NoSpace(zs)
    requires IsBlank(ending)
    requires parseFloat(xs).Some? && parseFloat(ys).Some? && parseFloat(zs).Some?
    ensures Split(ObjectLine(kind, ident, xs, ys, zs) + ending) == [Keyword(kind), ident, xs, ys, zs]
    ensures ParseObject(kind, ObjectLine(kind, ident, xs, ys, zs) + ending, parseFloat) ==
      Some((ident, Vector3(parseFloat(xs).value, parseFloat(ys).value, parseFloat(zs).value)))
  {
    var words := [Keyword(kind), ident, xs, ys, zs];
    assert NoSpace(Keyword(kind)) by {
      match kind
      case Sat => assert Keyword(kind) == "sat";
      case User => assert Keyword(kind) == "user";
      case Interferer => assert Keyword(kind) == "interferer";
    }
    SplitJoin(words);
    SplitTrailing(ObjectLine(kind, ident, xs, ys, zs), ending);
  }

  /** The newline a line read from a file in text mode ends with is whitespace. */
  lemma NewlineIsBlank()
    ensures IsBlank("\n")
  {
  }

  /** Reads one object line into `dest`: on success `dest` gains (or replaces) the
      entry for the line's identifier; on failure it is returned unchanged. */
  method ReadObject(kind: Kind, line: string, dest: map<string, Vector3>, parseFloat: string -> Option<real>)
    returns (ok: bool, result: map<string, Vector3>)
    requires Split(line) != []
    ensures ok <==> ParseObject(kind, line, parseFloat).Some?
    ensures ok ==> result == dest[ParseObject(kind, line, parseFloat).value.0 := ParseObject(kind, line, parseFloat).value.1]
    ensures !ok ==> result == dest
  {
    var parts := Split(line);
    if parts[0] != Keyword(kind) || |parts| != 5 {
      return false, dest;
    }
    var ident := parts[1];
    var x := parseFloat(parts[2]);
    var y := parseFloat(parts[3]);
    var z := parseFloat(parts[4]);
    if x.None? || y.None? || z.None? {
      return false, dest;
    }
    return true, dest[ident := Vector3(x.value, y.value, z.value)];
  }

  // ---------------------------------------------------------------------------
  // The whole file

  /** The three tables the loader fills, keyed by identifier. */
  datatype RawScenario = RawScenario(sats: map<string, Vector3>, users: map<string, Vector3>,
                                     interferers: map<string, Vector3>)
  {
    /** The table of objects of kind `kind`. */
    function Table(kind: Kind): map<string, Vector3>
    {
      match kind
      case Sat => sats
      case User => users
      case Interferer => interferers
    }

    /** This scenario with the table of kind `kind` replaced by `m`. */
    function WithTable(kind: Kind, m: map<string, Vector3>): (r: RawScenario)
      ensures r.Table(kind) == m
      ensures forall k: Kind | k != kind :: r.Table(k) == Table(k)
    {
      match kind
      case Sat => this.(sats := m)
      case User => this.(users := m)
      case Interferer => this.(interferers := m)
    }
  }

  const EmptyScenario: RawScenario := RawScenario(map[], map[], map[])

  /** How the loader treats a line, deciding in this order: a `#` anywhere makes
      it a comment, an all-whitespace line is skipped, then the first of the
      substrings "interferer", "sat", "user" it contains picks the kind. */
  datatype LineClass = Comment | Blank | Object(kind: Kind) | Invalid

  function Classify(line: string): (r: LineClass)
    ensures r == Comment <==> Contains(line, "#")
    ensures r == Blank <==> !Contains(line, "#") && Split(line) == []
    // a line dispatched to a kind has a token and contains that kind's keyword
    ensures r.Object? ==> Split(line) != [] && Contains(line, Keyword(r.kind))
    // a line is rejected outright exactly when it has a token, no `#` and no keyword
    ensures r == Invalid <==>
      !Contains(line, "#") && Split(line) != [] && forall k: Kind :: !Contains(line, Keyword(k))
    // the keywords are tried in the order "interferer", "sat", "user"
    ensures r == Object(Interferer) <==>
      !Contains(line, "#") && Split(line) != [] && Contains(line, "interferer")
    ensures r == Object(Sat) <==>
      !Contains(line, "#") && Split(line) != [] && !Contains(line, "interferer") && Contains(line, "sat")
    ensures r == Object(User) <==>
      !Contains(line, "#") && Split(line) != [] && !Contains(line, "interferer") && !Contains(line, "sat") &&
      Contains(line, "user")
  {
    BlankIffNoWords(line);
    if Contains(line, "#") then Comment
    else if IsBlank(line) then Blank
    else if Contains(line, "interferer") then Object(Interferer)
    else if Contains(line, "sat") then Object(Sat)
    else if Contains(line, "user") then Object(User)
    else Invalid
  }

  /** The line does not make the load fail. */
  predicate Accepted(line: string, parseFloat: string -> Option<real>)
  {
    match Classify(line)
    case Comment => true
    case Blank => true
    case Object(kind) => BlankIffNoWords(line); ParseObject(kind, line, parseFloat).Some?
    case Invalid => false
  }

  /** The result of loading `lines` on top of `acc`; `None` when some line fails. */
  function LoadFrom(lines: seq<string>, acc: RawScenario, parseFloat: string -> Option<real>): (r: Option<RawScenario>)
    // entries are only ever added or replaced, never removed
    ensures r.Some? ==> forall k: Kind :: acc.Table(k).Keys <= r.value.Table(k).Keys
    decreases |lines|
  {
    if lines == [] then Some(acc)
    else
      match Classify(lines[0])
      case Comment => LoadFrom(lines[1..], acc, parseFloat)
      case Blank => LoadFrom(lines[1..], acc, parseFloat)
      case Invalid => None
      case Object(kind) =>
        BlankIffNoWords(lines[0]);
        match ParseObject(kind, lines[0], parseFloat)
        case None => None
        case Some(entry) =>
          LoadFrom(lines[1..], acc.WithTable(kind, acc.Table(kind)[entry.0 := entry.1]), parseFloat)
  }

  /** The load succeeds exactly when every line is a comment, a blank line or a
      well-formed object line of the kind it is dispatched to; otherwise nothing is loaded. */
  lemma {:induction false} LoadSucceedsIff(lines: seq<string>, acc: RawScenario, parseFloat: string -> Option<real>)
    ensures LoadFrom(lines, acc, parseFloat).Some? <==>
      forall k | 0 <= k < |lines| :: Accepted(lines[k], parseFloat)
    decreases |lines|
  {
    if lines != [] {
      assert forall k | 1 <= k < |lines| :: lines[k] == lines[1..][k - 1];
      match Classify(lines[0])
      case Comment => LoadSucceedsIff(lines[1..], acc, parseFloat);
      case Blank => LoadSucceedsIff(lines[1..], acc, parseFloat);
      case Invalid =>
      case Object(kind) =>
        BlankIffNoWords(lines[0]);
        match ParseObject(kind, lines[0], parseFloat)
        case None =>
        case Some(entry) =>
          LoadSucceedsIff(lines[1..], acc.WithTable(kind, acc.Table(kind)[entry.0 := entry.1]), parseFloat);
    }
  }

  /** Line `j` of `lines` is dispatched to kind `kind` and parses to an entry for `id`. */
  predicate Defines(lines: seq<string>, j: int, kind: Kind, id: string, parseFloat: string -> Option<real>)
  {
    0 <= j < |lines| && Classify(lines[j]) == Object(kind) &&
    ParseObject(kind, lines[j], parseFloat).Some? && ParseObject(kind, lines[j], parseFloat).value.0 == id
  }

  /** Line `j` is the last line of `lines` that defines `id` for kind `kind`. */
  predicate LastDefines(lines: seq<string>, j: int, kind: Kind, id: string, parseFloat: string -> Option<real>)
  {
    Defines(lines, j, kind, id, parseFloat) &&
    forall j' | j < j' < |lines| :: !Defines(lines, j', kind, id, parseFloat)
  }

  /** The lines after the first define what they define one position later in `lines`. */
  lemma DefinesInTail(lines: seq<string>, kind: Kind, id: string, parseFloat: string -> Option<real>)
    requires lines != []
    ensures forall j | 0 <= j :: Defines(lines[1..], j, kind, id, parseFloat) <==> Defines(lines, j + 1, kind, id, parseFloat)
  {
    forall j | 0 <= j ensures Defines(lines[1..], j, kind, id, parseFloat) <==> Defines(lines, j + 1, kind, id, parseFloat) {
      if j < |lines| - 1 { assert lines[1..][j] == lines[j + 1]; }
    }
  }

  /** One step of the load: a successful load of `lines` is the load of the
      rest on top of `acc` with the first line's entry, if any, written in. */
  lemma LoadStep(lines: seq<string>, acc: RawScenario, parseFloat: string -> Option<real>)
    requires lines != [] && LoadFrom(lines, acc, parseFloat).Some?
    ensures Classify(lines[0]) != Invalid
    ensures !Classify(lines[0]).Object? ==> LoadFrom(lines, acc, parseFloat) == LoadFrom(lines[1..], acc, parseFloat)
    ensures Classify(lines[0]).Object? ==>
      var k0 := Classify(lines[0]).kind;
      Split(lines[0]) != [] && ParseObject(k0, lines[0], parseFloat).Some? &&
      var entry := ParseObject(k0, lines[0], parseFloat).value;
      LoadFrom(lines, acc, parseFloat) ==
        LoadFrom(lines[1..], acc.WithTable(k0, acc.Table(k0)[entry.0 := entry.1]), parseFloat)
  {
    BlankIffNoWords(lines[0]);
  }

  /** A successful load holds an identifier exactly when it was there before or
      some line defines it. */
  lemma {:induction false} LoadKeys(lines: seq<string>, acc: RawScenario, parseFloat: string -> Option<real>,
                                    kind: Kind, id: string)
    requires LoadFrom(lines, acc, parseFloat).Some?
    ensures id in LoadFrom(lines, acc, parseFloat).value.Table(kind) <==>
      id in acc.Table(kind) || exists j :: Defines(lines, j, kind, id, parseFloat)
    decreases |lines|
  {
    if lines != [] {
      var tail := lines[1..];
      LoadStep(lines, acc, parseFloat);
      DefinesInTail(lines, kind, id, parseFloat);
      assert forall j | Defines(lines, j, kind, id, parseFloat) :: j == 0 || Defines(tail, j - 1, kind, id, parseFloat);
      var c := Classify(lines[0]);
      if c.Object? {
        var entry := ParseObject(c.kind, lines[0], parseFloat).value;
        var acc' := acc.WithTable(c.kind, acc.Table(c.kind)[entry.0 := entry.1]);
        LoadKeys(tail, acc', parseFloat, kind, id);
        assert Defines(lines, 0, kind, id, parseFloat) <==> c.kind == kind && entry.0 == id;
      } else {
        LoadKeys(tail, acc, parseFloat, kind, id);
      }
    }
  }

  /** A successful load maps an identifier to the position on the last line that
      defines it, or, when no line does, to the position it had before. */
  lemma {:induction false} LoadValues(lines: seq<string>, acc: RawScenario, parseFloat: string -> Option<real>,
                                      kind: Kind, id: string)
    requires LoadFrom(lines, acc, parseFloat).Some?
    ensures forall j | LastDefines(lines, j, kind, id, parseFloat) ::
      id in LoadFrom(lines, acc, parseFloat).value.Table(kind) &&
      LoadFrom(lines, acc, parseFloat).value.Table(kind)[id] == ParseObject(kind, lines[j], parseFloat).value.1
    ensures id in acc.Table(kind) && (forall j :: !Defines(lines, j, kind, id, parseFloat)) ==>
      id in LoadFrom(lines, acc, parseFloat).value.Table(kind) &&
      LoadFrom(lines, acc, parseFloat).value.Table(kind)[id] == acc.Table(kind)[id]
    decreases |lines|
  {
    if lines != [] {
      var tail := lines[1..];
      var r := LoadFrom(lines, acc, parseFloat).value;
      LoadStep(lines, acc, parseFloat);
      DefinesInTail(lines, kind, id, parseFloat);
      var c := Classify(lines[0]);
      var acc' := acc;
      if c.Object? {
        var entry := ParseObject(c.kind, lines[0], parseFloat).value;
        acc' := acc.WithTable(c.kind, acc.Table(c.kind)[entry.0 := entry.1]);
        assert Defines(lines, 0, kind, id, parseFloat) <==> c.kind == kind && entry.0 == id;
      }
      assert r == LoadFrom(tail, acc', parseFloat).value;
      LoadValues(tail, acc', parseFloat, kind, id);
      forall j | LastDefines(lines, j, kind, id, parseFloat)
        ensures id in r.Table(kind) && r.Table(kind)[id] == ParseObject(kind, lines[j], parseFloat).value.1
      {
        if j > 0 {
          assert LastDefines(tail, j - 1, kind, id, parseFloat);
        } else {
          assert forall j' :: !Defines(tail, j', kind, id, parseFloat);
        }
      }
      if id in acc.Table(kind) && (forall j :: !Defines(lines, j, kind, id, parseFloat)) {
        assert !Defines(lines, 0, kind, id, parseFloat);
        assert forall j' :: !Defines(tail, j', kind, id, parseFloat);
      }
    }
  }

  /** Reads the lines of a scenario file into the three tables; `ok` is false
      as soon as one line fails. */
  method ReadScenario(lines: seq<string>, parseFloat: string -> Option<real>)
    returns (ok: bool, scenario: RawScenario)
    ensures ok <==> LoadFrom(lines, EmptyScenario, parseFloat).Some?
    ensures ok ==> scenario == LoadFrom(lines, EmptyScenario, parseFloat).value
  {
    scenario := EmptyScenario;
    for i := 0 to |lines|
      invariant LoadFrom(lines, EmptyScenario, parseFloat) == LoadFrom(lines[i..], scenario, parseFloat)
    {
      var line := lines[i];
      assert lines[i..][0] == line && lines[i..][1..] == lines[i + 1..];
      if Contains(line, "#") {
        continue;
      } else if IsBlank(line) {
        continue;
      } else if Contains(line, "interferer") {
        BlankIffNoWords(line);
        var read, table := ReadObject(Interferer, line, scenario.interferers, parseFloat);
        if !read {
          return false, scenario;
        }
        scenario := scenario.(interferers := table);
      } else if Contains(line, "sat") {
        BlankIffNoWords(line);
        var read, table := ReadObject(Sat, line, scenario.sats, parseFloat);
        if !read {
          return false, scenario;
        }
        scenario := scenario.(sats := table);
      } else if Contains(line, "user") {
        BlankIffNoWords(line);
        var read, table := ReadObject(User, line, scenario.users, parseFloat);
        if !read {
          return false, scenario;
        }
        scenario := scenario.(users := table);
      } else {
        return false, scenario;
      }
    }
    return true, scenario;
  }
}

/**
  `parse_nested_string_v2`: a single left-to-right scan of one journey string
  that files every trimmed token under the bracket depth at which it ends.

  The scan keeps a running buffer, a depth counter (it may go negative when
  the string has more `]` than `[`) and the table of tokens per depth.
  `Scan` is the state after a prefix, `Levels` the finished table, and the
  method `ParseNestedString` is the character loop of the source, proved to
  compute `Levels`.
*/
module BracketParser {
  import opened Text

  /** The tokens found at each depth, in scan order. */
  type LevelTable = map<int, seq<string>>

  datatype Scanner = Scanner(buffer: string, depth: int, levels: LevelTable)

  const Start: Scanner := Scanner("", 0, map[])

  /** Append `token` to the list at `depth`, creating the list if needed. */
  function Store(levels: LevelTable, depth: int, token: string): (r: LevelTable)
    ensures r.Keys == levels.Keys + {depth}
    ensures r[depth] == (if depth in levels then levels[depth] else []) + [token]
    ensures forall d :: d in levels && d != depth ==> r[d] == levels[d]
  {
    levels[depth := if depth in levels then levels[depth] + [token] else [token]]
  }

  /** Strip the buffer and store it at `depth` unless nothing is left. */
  function Flush(levels: LevelTable, depth: int, buffer: string): LevelTable
  {
    var token := Strip(buffer);
    if token == "" then levels else Store(levels, depth, token)
  }

  /** One character of the scan. A `[` entered at depth <= 0 keeps the buffer,
      so text before it becomes part of the next token. */
  function Step(st: Scanner, c: char): (r: Scanner)
    ensures r.depth == st.depth + (if c == '[' then 1 else if c == ']' then -1 else 0)
    ensures c != '[' && c != ']' && c != ',' ==> r.levels == st.levels
  {
    if c == '[' then
      if st.depth > 0 then Scanner("", st.depth + 1, Flush(st.levels, st.depth, st.buffer))
      else Scanner(st.buffer, st.depth + 1, st.levels)
    else if c == ']' then Scanner("", st.depth - 1, Flush(st.levels, st.depth, st.buffer))
    else if c == ',' then Scanner("", st.depth, Flush(st.levels, st.depth, st.buffer))
    else Scanner(st.buffer + [c], st.depth, st.levels)
  }

  /** The scanner state after reading all of `s`. */
  function Scan(s: string): (r: Scanner)
    ensures HasNoDelimiter(r.buffer)
  {
    if s == [] then Start
    else
      var st := Scan(s[..|s| - 1]);
      StepKeepsBuffer(st, s[|s| - 1]);
      Step(st, s[|s| - 1])
  }

  /** The table `parse_nested_string_v2(s)` returns. */
  function Levels(s: string): (r: LevelTable)
    ensures WellFormed(r)
  {
    var st := Scan(s);
    ScanWellFormed(s);
    FlushKeepsWellFormed(st.levels, st.depth, st.buffer);
    Flush(st.levels, st.depth, st.buffer)
  }

  /** The flush the loop performs at `[` (depth > 0), `]`, `,` and at the end:
      strip the buffer and, when something is left, append it to the list at
      `depth`, creating the list first when the depth is new. */
  method FlushBuffer(levelDict: LevelTable, depth: int, currentStr: string)
    returns (levelDict': LevelTable)
    ensures levelDict' == Flush(levelDict, depth, currentStr)
  {
    levelDict' := levelDict;
    var token := Strip(currentStr);
    if token != "" {
      if depth !in levelDict' {
        levelDict' := levelDict'[depth := []];
      }
      levelDict' := levelDict'[depth := levelDict'[depth] + [token]];
      assert levelDict' == Store(levelDict, depth, token) by {
        if depth !in levelDict { assert [] + [token] == [token]; }
      }
    }
  }

  /** The character loop of `parse_nested_string_v2`. */
  method ParseNestedString(s: string) returns (levelDict: LevelTable)
    ensures levelDict == Levels(s)
  {
    levelDict := map[];
    var currentStr := "";
    var openBrackets := 0;
    for i := 0 to |s|
      invariant Scanner(currentStr, openBrackets, levelDict) == Scan(s[..i])
    {
      ScanAppend(s[..i], s[i]);
      assert s[..i] + [s[i]] == s[..i + 1];
      var c := s[i];
      if c == '[' {
        if openBrackets > 0 {
          levelDict := FlushBuffer(levelDict, openBrackets, currentStr);
          currentStr := "";
        }
        openBrackets := openBrackets + 1;
      } else if c == ']' {
        levelDict := FlushBuffer(levelDict, openBrackets, currentStr);
        currentStr := "";
        openBrackets := openBrackets - 1;
      } else if c == ',' {
        levelDict := FlushBuffer(levelDict, openBrackets, currentStr);
        currentStr := "";
      } else {
        currentStr := currentStr + [c];
      }
    }
    assert s[..|s|] == s;
    levelDict := FlushBuffer(levelDict, openBrackets, currentStr);
  }

  // ------------------------------------------------------------ properties

  predicate HasNoDelimiter(s: string)
  {
    '[' !in s && ']' !in s && ',' !in s
  }

  /** What every stored token looks like. */
  predicate IsToken(t: string)
  {
    t != "" && IsStripped(t) && HasNoDelimiter(t)
  }

  /** Every depth present holds a non-empty list of tokens. */
  predicate WellFormed(levels: LevelTable)
  {
    forall d :: d in levels ==>
      |levels[d]| > 0 && forall k :: 0 <= k < |levels[d]| ==> IsToken(levels[d][k])
  }

  /** Number of `[` minus number of `]`. */
  function Balance(s: string): int
  {
    Count(s, '[') - Count(s, ']')
  }

  lemma FlushKeepsWellFormed(levels: LevelTable, depth: int, buffer: string)
    requires WellFormed(levels) && HasNoDelimiter(buffer)
    ensures WellFormed(Flush(levels, depth, buffer))
  {
    var token := Strip(buffer);
    StripFacts(buffer);
    if token != "" {
      assert IsToken(token);
      var r := Store(levels, depth, token);
      forall d | d in r
        ensures |r[d]| > 0 && forall k :: 0 <= k < |r[d]| ==> IsToken(r[d][k])
      {
        if d == depth {
          var old_ := if depth in levels then levels[depth] else [];
          assert r[d] == old_ + [token];
          forall k | 0 <= k < |r[d]| ensures IsToken(r[d][k]) {
            if k < |old_| { assert r[d][k] == old_[k]; }
          }
        }
      }
    }
  }

  /** After any prefix: the buffer has no delimiter, the table is well formed,
      and the depth is the number of `[` minus the number of `]` read. */
  lemma StepKeepsBuffer(st: Scanner, c: char)
    requires HasNoDelimiter(st.buffer)
    ensures HasNoDelimiter(Step(st, c).buffer)
  {
  }

  lemma StepInvariant(st: Scanner, c: char)
    requires HasNoDelimiter(st.buffer) && WellFormed(st.levels)
    ensures HasNoDelimiter(Step(st, c).buffer)
    ensures WellFormed(Step(st, c).levels)
    ensures Step(st, c).depth == st.depth + (if c == '[' then 1 else if c == ']' then -1 else 0)
  {
    FlushKeepsWellFormed(st.levels, st.depth, st.buffer);
  }

  lemma {:induction false} ScanInvariant(s: string)
    ensures HasNoDelimiter(Scan(s).buffer)
    ensures WellFormed(Scan(s).levels)
    ensures Scan(s).depth == Balance(s)
  {
    if s != [] {
      var p := s[..|s| - 1];
      ScanInvariant(p);
      StepInvariant(Scan(p), s[|s| - 1]);
    }
  }

  /** The delimiter and table facts of `ScanInvariant`, without the depth. */
  lemma ScanWellFormed(s: string)
    ensures HasNoDelimiter(Scan(s).buffer) && WellFormed(Scan(s).levels)
  {
    ScanInvariant(s);
  }

  lemma ScanAppend(s: string, c: char)
    ensures Scan(s + [c]) == Step(Scan(s), c)
  {
    assert (s + [c])[..|s|] == s;
  }

  /** Every stored token is non-empty, free of surrounding whitespace and of
      `[`, `]` and `,`; no depth maps to an empty list. */
  lemma LevelsWellFormed(s: string)
    ensures WellFormed(Levels(s))
  {
    ScanInvariant(s);
    var st := Scan(s);
    FlushKeepsWellFormed(st.levels, st.depth, st.buffer);
  }

  /** The depth is never clamped: a string with more `]` than `[` ends below 0. */
  lemma DepthIsBalance(s: string)
    ensures Scan(s).depth == Balance(s)
  {
    ScanInvariant(s);
  }

  /** Characters other than `[`, `]` and `,` only extend the buffer. */
  lemma {:induction false} ScanText(p: string, t: string)
    requires HasNoDelimiter(t)
    ensures Scan(p + t) == Scanner(Scan(p).buffer + t, Scan(p).depth, Scan(p).levels)
    decreases |t|
  {
    if t == [] {
      assert p + t == p;
      assert Scan(p).buffer + t == Scan(p).buffer;
    } else {
      var t' := t[..|t| - 1];
      var c := t[|t| - 1];
      assert t == t' + [c];
      assert c in t;
      assert HasNoDelimiter(t') by {
        forall x | x in t' ensures x in t { var k :| 0 <= k < |t'| && t'[k] == x; assert t[k] == x; }
      }
      ScanText(p, t');
      assert p + t == (p + t') + [c];
      ScanAppend(p + t', c);
      assert Scan(p).buffer + t == (Scan(p).buffer + t') + [c];
    }
  }

  /** A `[` read at depth <= 0 flushes nothing: the text read since the last
      flush stays in the buffer and becomes part of the next token. */
  lemma RootOpenMerges(p: string, t: string)
    requires HasNoDelimiter(t) && Scan(p).depth <= 0
    ensures Scan(p + t + "[") == Scanner(Scan(p).buffer + t, Scan(p).depth + 1, Scan(p).levels)
  {
    ScanText(p, t);
    ScanAppend(p + t, '[');
  }

  /** The input is one bracketed group: it opens with `[`, and only its last
      character may bring the depth back to 0. */
  predicate IsGroup(s: string)
  {
    |s| >= 2 && s[0] == '[' && s[|s| - 1] == ']'
    && forall k :: 1 <= k < |s| ==> Balance(s[..k]) >= 1
  }

  predicate KeysPositive(levels: LevelTable)
  {
    forall d :: d in levels ==> d >= 1
  }

  lemma {:induction false} GroupPrefixKeys(s: string, k: nat)
    requires IsGroup(s) && 1 <= k <= |s|
    ensures KeysPositive(Scan(s[..k]).levels)
    decreases k
  {
    if k == 1 {
      assert s[..1] == [] + ['['];
      ScanAppend([], '[');
    } else {
      GroupPrefixKeys(s, k - 1);
      DepthIsBalance(s[..k - 1]);
      ScanAppend(s[..k - 1], s[k - 1]);
      assert s[..k - 1] + [s[k - 1]] == s[..k];
      var st := Scan(s[..k - 1]);
      assert st.depth >= 1;
      StoreKeys(st.levels, st.depth, st.buffer);
    }
  }

  lemma StoreKeys(levels: LevelTable, depth: int, buffer: string)
    requires KeysPositive(levels) && depth >= 1
    ensures KeysPositive(Flush(levels, depth, buffer))
  {
  }

  /** A bracketed group such as `"[a,[b,c],d]"` files nothing under depth 0
      or below: its tokens land under depths 1 and up. */
  lemma GroupKeysPositive(s: string)
    requires IsGroup(s)
    ensures KeysPositive(Levels(s))
  {
    GroupPrefixKeys(s, |s|);
    assert s[..|s|] == s;
    ScanAppend(s[..|s| - 1], ']');
    assert s[..|s| - 1] + [']'] == s;
    assert Scan(s).buffer == "";
  }

  /** A one-letter token strips to itself. */
  lemma StripLetter(c: char)
    requires 'a' <= c <= 'z'
    ensures Strip([c]) == [c]
  {
    assert !IsSpace([c][0]);
    StripOfStripped([c]);
  }

  predicate IsLetter(c: char)
  {
    'a' <= c <= 'z'
  }

  /** `f` reads a string the way `Scan` does: from `Start`, one `Step` per
      character. The example proofs below work on any such `f`. */
  ghost predicate StepsLike(f: string -> Scanner)
  {
    && f([]) == Start
    && forall q: string, x: char :: f(q + [x]) == Step(f(q), x)
  }

  lemma ScanStepsLike()
    ensures StepsLike(Scan)
  {
    forall q: string, x: char ensures Scan(q + [x]) == Step(Scan(q), x) {
      ScanAppend(q, x);
    }
  }

  /** A `[` read with an empty buffer at depth `d` opens depth `d + 1`. */
  lemma ReadOpen(f: string -> Scanner, p: string, d: int, levels: LevelTable)
    requires StepsLike(f) && f(p) == Scanner("", d, levels)
    ensures f(p + ['[']) == Scanner("", d + 1, levels)
  {
    assert f(p + ['[']) == Step(f(p), '[');
    StripOfStripped("");
  }

  /** A letter read after any prefix joins the buffer. */
  lemma ReadLetter(f: string -> Scanner, p: string, c: char, st: Scanner)
    requires StepsLike(f) && f(p) == st && IsLetter(c)
    ensures f(p + [c]) == Scanner(st.buffer + [c], st.depth, st.levels)
  {
    assert f(p + [c]) == Step(f(p), c);
  }

  /** A `,` after a one-letter buffer files the letter under the current depth. */
  lemma ReadCommaAfter(f: string -> Scanner, p: string, c: char, d: int, levels: LevelTable)
    requires StepsLike(f) && f(p) == Scanner([c], d, levels) && IsLetter(c)
    ensures f(p + [',']) == Scanner("", d, Store(levels, d, [c]))
  {
    assert f(p + [',']) == Step(f(p), ',');
    StripLetter(c);
  }

  /** A `]` after a one-letter buffer files the letter and closes the depth. */
  lemma ReadCloseAfter(f: string -> Scanner, p: string, c: char, d: int, levels: LevelTable)
    requires StepsLike(f) && f(p) == Scanner([c], d, levels) && IsLetter(c)
    ensures f(p + [']']) == Scanner("", d - 1, Store(levels, d, [c]))
  {
    assert f(p + [']']) == Step(f(p), ']');
    StripLetter(c);
  }

  /** A `,` with an empty buffer files nothing. */
  lemma ReadCommaEmpty(f: string -> Scanner, p: string, d: int, levels: LevelTable)
    requires StepsLike(f) && f(p) == Scanner("", d, levels)
    ensures f(p + [',']) == Scanner("", d, levels)
  {
    assert f(p + [',']) == Step(f(p), ',');
    StripOfStripped("");
  }

  /** The text `"[a,[b,c],d]"`, one character at a time. */
  function NestedGroupText(a: char, b: char, c: char, d: char): (t: string)
    ensures t == ['[', a, ',', '[', b, ',', c, ']', ',', d, ']']
  {
    [] + ['['] + [a] + [','] + ['['] + [b] + [','] + [c] + [']'] + [','] + [d] + [']']
  }

  /** `"[a,[b,c],d]"` read character by character: `a` and `d` are filed
      under depth 1, `b` and `c` under depth 2, and the scan ends at depth 0
      with an empty buffer. */
  lemma ReadNestedGroup(f: string -> Scanner, a: char, b: char, c: char, d: char)
    requires StepsLike(f) && IsLetter(a) && IsLetter(b) && IsLetter(c) && IsLetter(d)
    ensures f([] + ['['] + [a] + [','] + ['['] + [b] + [','] + [c] + [']'] + [','] + [d] + [']'])
         == Scanner("", 0, Store(Store(Store(Store(map[], 1, [a]), 2, [b]), 2, [c]), 1, [d]))
  {
    var m1 := Store(map[], 1, [a]);
    var m2 := Store(m1, 2, [b]);
    var m3 := Store(m2, 2, [c]);
    ReadOpen(f, [], 0, map[]);
    var p1 := [] + ['['];
    ReadLetter(f, p1, a, Scanner("", 1, map[]));
    var p2 := p1 + [a];
    ReadCommaAfter(f, p2, a, 1, map[]);
    var p3 := p2 + [','];
    ReadOpen(f, p3, 1, m1);
    var p4 := p3 + ['['];
    ReadLetter(f, p4, b, Scanner("", 2, m1));
    var p5 := p4 + [b];
    ReadCommaAfter(f, p5, b, 2, m1);
    var p6 := p5 + [','];
    ReadLetter(f, p6, c, Scanner("", 2, m2));
    var p7 := p6 + [c];
    ReadCloseAfter(f, p7, c, 2, m2);
    var p8 := p7 + [']'];
    ReadCommaEmpty(f, p8, 1, m3);
    var p9 := p8 + [','];
    ReadLetter(f, p9, d, Scanner("", 1, m3));
    var p10 := p9 + [d];
    ReadCloseAfter(f, p10, d, 1, m3);
  }

  /** The scan of `"[a,[b,c],d]"`. */
  lemma ScanNestedGroup(a: char, b: char, c: char, d: char)
    requires IsLetter(a) && IsLetter(b) && IsLetter(c) && IsLetter(d)
    ensures Scan(NestedGroupText(a, b, c, d))
         == Scanner("", 0, Store(Store(Store(Store(map[], 1, [a]), 2, [b]), 2, [c]), 1, [d]))
  {
    ScanStepsLike();
    ReadNestedGroup(Scan, a, b, c, d);
  }

  /** `"[a,[b,c],d]"` with any four letters: the outer tokens are filed under
      depth 1, the inner ones under depth 2, and nothing under depth 0. */
  lemma NestedGroupLevels(a: char, b: char, c: char, d: char)
    requires IsLetter(a) && IsLetter(b) && IsLetter(c) && IsLetter(d)
    ensures Levels(['[', a, ',', '[', b, ',', c, ']', ',', d, ']'])
         == map[1 := [[a], [d]], 2 := [[b], [c]]]
  {
    ScanNestedGroup(a, b, c, d);
    StripOfStripped("");
    NestedGroupStores(a, b, c, d);
  }

  /** The four stores of the scan, as one table. */
  lemma NestedGroupStores(a: char, b: char, c: char, d: char)
    ensures Store(Store(Store(Store(map[], 1, [a]), 2, [b]), 2, [c]), 1, [d])
         == map[1 := [[a], [d]], 2 := [[b], [c]]]
  {
    var m1 := Store(map[], 1, [a]);
    assert m1 == map[1 := [[a]]];
    var m2 := Store(m1, 2, [b]);
    assert m2 == map[1 := [[a]], 2 := [[b]]];
    var m3 := Store(m2, 2, [c]);
    assert m3[2] == [[b]] + [[c]] == [[b], [c]];
    assert m3.Keys == {1, 2} && m3[1] == [[a]];
    assert m3 == map[1 := [[a]], 2 := [[b], [c]]];
    assert m3[1] + [[d]] == [[a], [d]];
  }

  /** `"[a,[b,c],d]"` gives `{1: ["a", "d"], 2: ["b", "c"]}`, with no key 0. */
  lemma NestedGroupExample()
    ensures Levels("[a,[b,c],d]") == map[1 := ["a", "d"], 2 := ["b", "c"]]
  {
    NestedGroupLevels('a', 'b', 'c', 'd');
  }
}

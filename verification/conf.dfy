/**
 * The directives ReadConf reads: the numeric tunables with their defaults, and
 * one dataset source per `xpd.datasetsrc` line, whose `key:value` tokens are
 * found by the patterns `([ \t]|^)key:([^ \t]*)`.
 */
module DataSetsConf {

  import opened Wrappers
  import opened Text

  const DefaultLoopSleep: int := 60
  const DefaultScanDsEvery: int := 10
  const DefaultParallelXfrs: int := 10
  const DefaultDestPath: string := "/alien"
  const OptsReadWrite: string := "Ar:Av:"
  const OptsReadOnly: string := "-Ar:-Av:"

  /** The configuration file as the reader hands it over: directives already converted to integers, absent ones None. */
  datatype ConfFile = ConfFile(
    sleepSecs: Option<int>,
    scanDsEvery: Option<int>,
    parallelXfrs: Option<int>,
    stageCmd: Option<string>,
    processDs: seq<string>,
    datasetSrc: seq<string>)

  /** A valid dataset source: local URL, MSS URL, destination path on the pool, options, dataset masks. */
  datatype DataSetSrc = DataSetSrc(url: string, mss: string, destPath: string, opts: string, dsMasks: seq<string>)

  /** A numeric directive falls back to its default when absent or not positive. */
  function NumericDirective(v: Option<int>, default: int): (r: int)
    ensures v.Some? && v.value > 0 ==> r == v.value
    ensures r == default || (v == Some(r) && r > 0)
    ensures default > 0 ==> r > 0
  {
    if v.Some? && v.value > 0 then v.value else default
  }

  // ---------------------------------------------------------------------
  // Finding a `key:value` token

  /** `key` starts at i, at the start of the line or right after a blank. */
  predicate KeyAt(line: string, key: string, i: nat)
  {
    i + |key| <= |line| && line[i..i + |key|] == key && (i == 0 || IsBlank(line[i - 1]))
  }

  /** The leftmost position at or after `from` where `key` starts a token, or -1. */
  function FindKey(line: string, key: string, from: nat): (r: int)
    decreases |line| - from
    ensures r >= -1
    ensures r >= 0 ==> from <= r && KeyAt(line, key, r)
  {
    if from + |key| > |line| then -1
    else if KeyAt(line, key, from) then from
    else FindKey(line, key, from + 1)
  }

  /** FindKey returns the leftmost `key` token at or after `from`: none comes before it. */
  lemma {:induction false} FindKeyLeftmost(line: string, key: string, from: nat)
    decreases |line| - from
    ensures var r := FindKey(line, key, from);
      forall i: nat :: from <= i && (r < 0 || i < r) ==> !KeyAt(line, key, i)
  {
    if from + |key| <= |line| && !KeyAt(line, key, from) {
      FindKeyLeftmost(line, key, from + 1);
    }
  }

  /** The group `([^ \t]*)`: the longest blank-free prefix. */
  function NonBlankRun(s: string): (r: string)
    ensures |r| <= |s| && r == s[..|r|] && BlankFree(r)
    ensures |r| == |s| || IsBlank(s[|r|])
  {
    if |s| == 0 || IsBlank(s[0]) then "" else [s[0]] + NonBlankRun(s[1..])
  }

  /** The value of the first `key` token of the line: the blank-free run after it. */
  function DirectiveValue(line: string, key: string): Option<string>
  {
    var i := FindKey(line, key, 0);
    if i < 0 then None else Some(NonBlankRun(line[i + |key|..]))
  }

  /**
   * The lookup finds nothing exactly when the line has no `key` token, and
   * otherwise answers the blank-free run right after the leftmost one.
   */
  lemma DirectiveValueSpec(line: string, key: string)
    ensures var r := DirectiveValue(line, key);
      && (r.None? <==> forall i: nat :: !KeyAt(line, key, i))
      && (r.Some? ==> exists i: nat :: && KeyAt(line, key, i)
                                       && (forall j: nat :: j < i ==> !KeyAt(line, key, j))
                                       && StartsWith(line[i + |key|..], r.value)
                                       && (|line[i + |key|..]| == |r.value| || IsBlank(line[i + |key| + |r.value|])))
  {
    var i := FindKey(line, key, 0);
    FindKeyLeftmost(line, key, 0);
    if i >= 0 {
      var v := NonBlankRun(line[i + |key|..]);
      assert StartsWith(line[i + |key|..], v);
      assert KeyAt(line, key, i);
    }
  }

  /** The line holds a `key` token at all (the `rw=1` flag). */
  predicate HasKey(line: string, key: string)
  {
    FindKey(line, key, 0) >= 0
  }

  /**
   * One `xpd.datasetsrc` line: valid only with an MSS URL the URL parser accepts
   * as `root://...` and a `url:`; destination path and options take their
   * defaults when missing, the options depending on `rw=1`.
   */
  function ParseSource(line: string, mssValid: string -> bool, masks: seq<string>): (r: Option<DataSetSrc>)
    ensures r.Some? <==>
      DirectiveValue(line, "mss:").Some? && mssValid(DirectiveValue(line, "mss:").value)
      && DirectiveValue(line, "url:").Some?
    ensures r.Some? ==> r.value.dsMasks == masks
  {
    var mss := DirectiveValue(line, "mss:");
    var dsp := DirectiveValue(line, "destpath:");
    var url := DirectiveValue(line, "url:");
    var rw := HasKey(line, "rw=1");
    var opt := DirectiveValue(line, "opt:");
    if mss.Some? && mssValid(mss.value) && url.Some? then
      Some(DataSetSrc(url.value, mss.value, dsp.GetOr(DefaultDestPath),
                      opt.GetOr(if rw then OptsReadWrite else OptsReadOnly), masks))
    else None
  }

  /** What `parse` accepts among the lines, in line order; rejected lines are skipped. */
  function Collect<T>(lines: seq<string>, parse: string -> Option<T>): (r: seq<T>)
    ensures |r| <= |lines|
    ensures r == [] <==> forall i :: 0 <= i < |lines| ==> parse(lines[i]).None?
    ensures forall s :: s in r ==> exists i :: 0 <= i < |lines| && parse(lines[i]) == Some(s)
  {
    if |lines| == 0 then []
    else
      var init := Collect(lines[..|lines| - 1], parse);
      assert forall i :: 0 <= i < |lines| - 1 ==> lines[..|lines| - 1][i] == lines[i];
      match parse(lines[|lines| - 1])
      case Some(s) => init + [s]
      case None => init
  }

  /** Every accepted line gives its result: none is dropped. */
  lemma {:induction false} CollectComplete<T>(lines: seq<string>, parse: string -> Option<T>, i: nat)
    requires i < |lines| && parse(lines[i]).Some?
    ensures parse(lines[i]).value in Collect(lines, parse)
  {
    var n := |lines| - 1;
    if i < n {
      assert lines[..n][i] == lines[i];
      CollectComplete(lines[..n], parse, i);
    }
  }

  /** Results come out in line order: the lines of `a + b` give those of `a`, then those of `b`. */
  lemma {:induction false} CollectConcat<T>(a: seq<string>, b: seq<string>, parse: string -> Option<T>)
    ensures Collect(a + b, parse) == Collect(a, parse) + Collect(b, parse)
    decreases |b|
  {
    if |b| == 0 {
      assert a + b == a;
    } else {
      var n := |b| - 1;
      assert (a + b)[..|a + b| - 1] == a + b[..n];
      assert (a + b)[|a + b| - 1] == b[n];
      CollectConcat(a, b[..n], parse);
    }
  }

  /** The valid sources of the lines, in order; invalid lines are skipped. */
  function ParseSources(lines: seq<string>, mssValid: string -> bool, masks: seq<string>): (r: seq<DataSetSrc>)
    ensures |r| <= |lines|
    ensures r == [] <==> forall i :: 0 <= i < |lines| ==> ParseSource(lines[i], mssValid, masks).None?
    ensures forall s :: s in r ==> exists i :: 0 <= i < |lines| && ParseSource(lines[i], mssValid, masks) == Some(s)
  {
    Collect(lines, SourceParser(mssValid, masks))
  }

  /** ParseSource as a per-line parser. */
  function SourceParser(mssValid: string -> bool, masks: seq<string>): string -> Option<DataSetSrc>
  {
    line => ParseSource(line, mssValid, masks)
  }

  /** The last line adds its source, if it has one, after those of the lines before it. */
  lemma ParseSourcesLast(lines: seq<string>, mssValid: string -> bool, masks: seq<string>)
    requires |lines| > 0
    ensures var p := ParseSource(lines[|lines| - 1], mssValid, masks);
      ParseSources(lines, mssValid, masks)
        == ParseSources(lines[..|lines| - 1], mssValid, masks) + (if p.Some? then [p.value] else [])
  {
  }

  /** Every valid line becomes a source: none is dropped. */
  lemma ParseSourcesComplete(lines: seq<string>, mssValid: string -> bool, masks: seq<string>, i: nat)
    requires i < |lines| && ParseSource(lines[i], mssValid, masks).Some?
    ensures ParseSource(lines[i], mssValid, masks).value in ParseSources(lines, mssValid, masks)
  {
    CollectComplete(lines, SourceParser(mssValid, masks), i);
  }

  /** Sources come out in line order: the lines of `a + b` give those of `a`, then those of `b`. */
  lemma ParseSourcesConcat(a: seq<string>, b: seq<string>, mssValid: string -> bool, masks: seq<string>)
    ensures ParseSources(a + b, mssValid, masks) == ParseSources(a, mssValid, masks) + ParseSources(b, mssValid, masks)
  {
    CollectConcat(a, b, SourceParser(mssValid, masks));
  }

  // ---------------------------------------------------------------------
  // Round trip: a line written as blank-separated tokens reads back

  /** Tokens joined by single blanks. */
  function Join(fs: seq<string>): string
  {
    if |fs| == 0 then "" else if |fs| == 1 then fs[0] else fs[0] + " " + Join(fs[1..])
  }

  /** The value after `key` in the first token that starts with it. */
  function TokenValue(fs: seq<string>, key: string): Option<string>
  {
    if |fs| == 0 then None
    else if StartsWith(fs[0], key) then Some(fs[0][|key|..])
    else TokenValue(fs[1..], key)
  }

  /** A token that does not start with `key` hides no `key` token. */
  lemma NoKeyInToken(f: string, key: string)
    requires BlankFree(f) && !StartsWith(f, key)
    ensures forall i: nat :: !KeyAt(f, key, i)
  {
  }

  /** In `f + " " + rest`, no `key` token starts inside `f` or at its blank. */
  lemma NoKeyBeforeRest(f: string, rest: string, key: string, i: nat)
    requires BlankFree(f) && BlankFree(key) && !StartsWith(f, key) && i <= |f|
    ensures !KeyAt(f + " " + rest, key, i)
  {
    var line := f + " " + rest;
    if i == 0 {
      if |key| <= |f| {
        assert line[0..|key|] == f[..|key|];
      } else if |key| <= |line| {
        assert line[|f|] == ' ';
      }
    } else {
      assert line[i - 1] == f[i - 1];
    }
  }

  /** In `f + " " + rest`, the `key` tokens after the blank are those of `rest`, shifted. */
  lemma KeyInRest(f: string, rest: string, key: string, j: nat)
    ensures KeyAt(f + " " + rest, key, |f| + 1 + j) == KeyAt(rest, key, j)
  {
    var line := f + " " + rest;
    if j + |key| <= |rest| {
      assert line[|f| + 1 + j..|f| + 1 + j + |key|] == rest[j..j + |key|];
      if j > 0 {
        assert line[|f| + 1 + j - 1] == rest[j - 1];
      }
    }
  }

  lemma {:induction false} NonBlankRunOf(v: string, tail: string)
    requires BlankFree(v) && (|tail| == 0 || IsBlank(tail[0]))
    ensures NonBlankRun(v + tail) == v
  {
    if |v| > 0 {
      assert (v + tail)[1..] == v[1..] + tail;
      NonBlankRunOf(v[1..], tail);
      assert [v[0]] + v[1..] == v;
    } else {
      assert v + tail == tail;
    }
  }

  /** Prefixing a token that does not start with `key` shifts the first `key` token by the token and its blank. */
  lemma FindKeyShift(f: string, rest: string, key: string)
    requires BlankFree(f) && BlankFree(key) && !StartsWith(f, key)
    ensures var r := FindKey(rest, key, 0);
      var l := FindKey(f + " " + rest, key, 0);
      (r < 0 ==> l < 0) && (r >= 0 ==> l == |f| + 1 + r)
  {
    var line := f + " " + rest;
    var r := FindKey(rest, key, 0);
    var l := FindKey(line, key, 0);
    FindKeyLeftmost(rest, key, 0);
    FindKeyLeftmost(line, key, 0);
    if l >= 0 {
      if l <= |f| {
        NoKeyBeforeRest(f, rest, key, l);
      } else {
        KeyInRest(f, rest, key, l - |f| - 1);
      }
    }
    if r >= 0 {
      KeyInRest(f, rest, key, r);
    }
  }

  /** The lookup reads the blank-free run after the first `key` token, or finds none. */
  lemma DirectiveValueAt(line: string, key: string)
    ensures var i := FindKey(line, key, 0);
      DirectiveValue(line, key) == if i < 0 then None else Some(NonBlankRun(line[i + |key|..]))
  {
  }

  /** Two lines whose first `key` tokens are followed by the same text answer the same. */
  lemma SameLookup(line: string, rest: string, key: string)
    requires (FindKey(rest, key, 0) < 0) == (FindKey(line, key, 0) < 0)
    requires FindKey(rest, key, 0) >= 0 ==>
      line[FindKey(line, key, 0) + |key|..] == rest[FindKey(rest, key, 0) + |key|..]
    ensures DirectiveValue(line, key) == DirectiveValue(rest, key)
  {
    DirectiveValueAt(line, key);
    DirectiveValueAt(rest, key);
  }

  lemma SliceOfSuffix(line: string, rest: string, off: nat, k: nat)
    requires off <= |line| && line[off..] == rest && k <= |rest|
    ensures line[off + k..] == rest[k..]
  {
    assert |line| == off + |rest|;
    forall i | 0 <= i < |rest| - k
      ensures line[off + k..][i] == rest[k..][i]
    {
      assert line[off + k + i] == line[off..][k + i];
    }
  }

  /** A token not starting with `key`, followed by a blank, does not change the lookup. */
  lemma SkipToken(f: string, rest: string, key: string)
    requires BlankFree(f) && BlankFree(key) && !StartsWith(f, key)
    ensures DirectiveValue(f + " " + rest, key) == DirectiveValue(rest, key)
  {
    var line := f + " " + rest;
    var r := FindKey(rest, key, 0);
    FindKeyShift(f, rest, key);
    if r >= 0 {
      assert line[|f| + 1..] == rest;
      assert KeyAt(rest, key, r);
      SliceOfSuffix(line, rest, |f| + 1, r + |key|);
    }
    SameLookup(line, rest, key);
  }

  /** A line whose first token is `key + v`, `v` blank-free, answers `v`. */
  lemma HeadToken(key: string, v: string, tail: string)
    requires |key| > 0 && BlankFree(v) && (|tail| == 0 || IsBlank(tail[0]))
    ensures DirectiveValue(key + v + tail, key) == Some(v)
  {
    var line := key + v + tail;
    assert line[0..|key|] == key;
    assert KeyAt(line, key, 0);
    assert line[|key|..] == v + tail;
    NonBlankRunOf(v, tail);
  }

  /** A line of blank-free tokens answers every lookup with its first matching token. */
  lemma {:induction false} JoinLookup(fs: seq<string>, key: string)
    requires |key| > 0 && BlankFree(key)
    requires forall k :: 0 <= k < |fs| ==> BlankFree(fs[k])
    ensures DirectiveValue(Join(fs), key) == TokenValue(fs, key)
  {
    if |fs| == 0 {
      assert forall i: nat :: !KeyAt(Join(fs), key, i);
    } else if StartsWith(fs[0], key) {
      var v := fs[0][|key|..];
      assert fs[0] == key + v;
      if |fs| == 1 {
        assert Join(fs) == key + v + "";
        HeadToken(key, v, "");
      } else {
        assert Join(fs) == key + v + (" " + Join(fs[1..]));
        HeadToken(key, v, " " + Join(fs[1..]));
      }
    } else if |fs| == 1 {
      NoKeyInToken(fs[0], key);
    } else {
      JoinLookup(fs[1..], key);
      SkipToken(fs[0], Join(fs[1..]), key);
    }
  }

  /** Tokens whose first characters differ never match each other's key. */
  lemma TokenValueSkip(fs: seq<string>, key: string)
    requires |fs| > 0 && |fs[0]| > 0 && |key| > 0 && fs[0][0] != key[0]
    ensures TokenValue(fs, key) == TokenValue(fs[1..], key)
  {
  }

  /** The first token `key + v` answers `v`. */
  lemma TokenValueHead(key: string, v: string, rest: seq<string>)
    ensures TokenValue([key + v] + rest, key) == Some(v)
  {
    assert ([key + v] + rest)[0] == key + v;
    assert (key + v)[..|key|] == key;
    assert (key + v)[|key|..] == v;
  }

  /** A source line written as blank-separated tokens, optional directives left out when None. */
  function SourceTokens(mss: string, url: string, dest: Option<string>, opt: Option<string>, rw: bool): seq<string>
  {
    ["mss:" + mss, "url:" + url]
    + (if dest.Some? then ["destpath:" + dest.value] else [])
    + (if opt.Some? then ["opt:" + opt.value] else [])
    + (if rw then ["rw=1"] else [])
  }

  /** The lookups a source line's tokens answer. */
  lemma SourceTokenValues(mss: string, url: string, dest: Option<string>, opt: Option<string>, rw: bool)
    ensures var fs := SourceTokens(mss, url, dest, opt, rw);
      && TokenValue(fs, "mss:") == Some(mss)
      && TokenValue(fs, "url:") == Some(url)
      && TokenValue(fs, "destpath:") == dest
      && TokenValue(fs, "opt:") == opt
      && TokenValue(fs, "rw=1").Some? == rw
  {
    var w: seq<string> := if rw then ["rw=1"] else [];
    var o: seq<string> := (if opt.Some? then ["opt:" + opt.value] else []) + w;
    var d: seq<string> := (if dest.Some? then ["destpath:" + dest.value] else []) + o;
    var u: seq<string> := ["url:" + url] + d;
    var fs: seq<string> := ["mss:" + mss] + u;
    assert fs == SourceTokens(mss, url, dest, opt, rw);
    // rw=1
    if rw { TokenValueHead("rw=1", "", []); assert "rw=1" + "" == "rw=1"; }
    // opt:
    if opt.Some? {
      TokenValueHead("opt:", opt.value, w);
      TokenValueSkip(o, "rw=1");
      assert o[1..] == w;
    } else {
      assert o == w;
      if rw { TokenValueSkip(w, "opt:"); }
    }
    assert TokenValue(o, "rw=1").Some? == rw;
    assert TokenValue(o, "opt:") == opt;
    // destpath:
    if dest.Some? {
      TokenValueHead("destpath:", dest.value, o);
      TokenValueSkip(d, "opt:");
      TokenValueSkip(d, "rw=1");
      assert d[1..] == o;
    } else {
      assert d == o;
    }
    assert TokenValue(o, "destpath:") == None by {
      if opt.Some? { TokenValueSkip(o, "destpath:"); assert o[1..] == w; }
      if rw { TokenValueSkip(w, "destpath:"); assert w[1..] == []; }
    }
    assert TokenValue(d, "destpath:") == dest;
    // url:
    TokenValueHead("url:", url, d);
    assert u[1..] == d;
    TokenValueSkip(u, "destpath:");
    TokenValueSkip(u, "opt:");
    TokenValueSkip(u, "rw=1");
    // mss:
    TokenValueHead("mss:", mss, u);
    assert fs[1..] == u;
    TokenValueSkip(fs, "url:");
    TokenValueSkip(fs, "destpath:");
    TokenValueSkip(fs, "opt:");
    TokenValueSkip(fs, "rw=1");
  }

  /** A line whose lookups give these values parses to the source they describe. */
  lemma ParseSourceOf(line: string, mss: string, url: string, dest: Option<string>, opt: Option<string>, rw: bool,
                      mssValid: string -> bool, masks: seq<string>)
    requires mssValid(mss)
    requires DirectiveValue(line, "mss:") == Some(mss) && DirectiveValue(line, "url:") == Some(url)
    requires DirectiveValue(line, "destpath:") == dest && DirectiveValue(line, "opt:") == opt
    requires HasKey(line, "rw=1") == rw
    ensures ParseSource(line, mssValid, masks)
      == Some(DataSetSrc(url, mss, dest.GetOr(DefaultDestPath),
                         opt.GetOr(if rw then OptsReadWrite else OptsReadOnly), masks))
  {
  }

  lemma PrefixedBlankFree(key: string, v: string)
    requires BlankFree(key) && BlankFree(v)
    ensures BlankFree(key + v)
  {
    var t := key + v;
    forall i | 0 <= i < |t| ensures !IsBlank(t[i]) {
      if i >= |key| { assert t[i] == v[i - |key|]; }
    }
  }

  /** Every token of a source line written from blank-free values is blank-free. */
  lemma SourceTokensBlankFree(mss: string, url: string, dest: Option<string>, opt: Option<string>, rw: bool)
    requires BlankFree(mss) && BlankFree(url)
    requires dest.Some? ==> BlankFree(dest.value)
    requires opt.Some? ==> BlankFree(opt.value)
    ensures var fs := SourceTokens(mss, url, dest, opt, rw); forall k :: 0 <= k < |fs| ==> BlankFree(fs[k])
  {
    PrefixedBlankFree("mss:", mss);
    PrefixedBlankFree("url:", url);
    if dest.Some? { PrefixedBlankFree("destpath:", dest.value); }
    if opt.Some? { PrefixedBlankFree("opt:", opt.value); }
  }

  /** The directive keys of a source line contain no blank. */
  lemma KeysBlankFree()
    ensures BlankFree("mss:") && BlankFree("url:") && BlankFree("destpath:")
    ensures BlankFree("opt:") && BlankFree("rw=1")
  {
  }

  /** Token lookups carry over to the joined line. */
  lemma TokenLineValues(fs: seq<string>, line: string, mss: string, url: string, dest: Option<string>, opt: Option<string>, rw: bool)
    requires forall k :: 0 <= k < |fs| ==> BlankFree(fs[k])
    requires line == Join(fs)
    requires TokenValue(fs, "mss:") == Some(mss) && TokenValue(fs, "url:") == Some(url)
    requires TokenValue(fs, "destpath:") == dest && TokenValue(fs, "opt:") == opt
    requires TokenValue(fs, "rw=1").Some? == rw
    ensures DirectiveValue(line, "mss:") == Some(mss) && DirectiveValue(line, "url:") == Some(url)
    ensures DirectiveValue(line, "destpath:") == dest && DirectiveValue(line, "opt:") == opt
    ensures HasKey(line, "rw=1") == rw
  {
    KeysBlankFree();
    JoinLookup(fs, "mss:");
    JoinLookup(fs, "url:");
    JoinLookup(fs, "destpath:");
    JoinLookup(fs, "opt:");
    JoinLookup(fs, "rw=1");
  }

  /** The lookups on a line written from blank-free values. */
  lemma SourceLineValues(mss: string, url: string, dest: Option<string>, opt: Option<string>, rw: bool, line: string)
    requires BlankFree(mss) && BlankFree(url)
    requires dest.Some? ==> BlankFree(dest.value)
    requires opt.Some? ==> BlankFree(opt.value)
    requires line == Join(SourceTokens(mss, url, dest, opt, rw))
    ensures DirectiveValue(line, "mss:") == Some(mss) && DirectiveValue(line, "url:") == Some(url)
    ensures DirectiveValue(line, "destpath:") == dest && DirectiveValue(line, "opt:") == opt
    ensures HasKey(line, "rw=1") == rw
  {
    var fs := SourceTokens(mss, url, dest, opt, rw);
    SourceTokensBlankFree(mss, url, dest, opt, rw);
    SourceTokenValues(mss, url, dest, opt, rw);
    TokenLineValues(fs, line, mss, url, dest, opt, rw);
  }

  /**
   * Round trip: a line written from blank-free values reads back as that
   * source, a missing destination path as `/alien` and missing options as the
   * read-write or read-only default.
   */
  lemma ParseSourceRoundTrip(mss: string, url: string, dest: Option<string>, opt: Option<string>, rw: bool,
                             mssValid: string -> bool, masks: seq<string>)
    requires BlankFree(mss) && BlankFree(url) && mssValid(mss)
    requires dest.Some? ==> BlankFree(dest.value)
    requires opt.Some? ==> BlankFree(opt.value)
    ensures ParseSource(Join(SourceTokens(mss, url, dest, opt, rw)), mssValid, masks)
      == Some(DataSetSrc(url, mss, dest.GetOr(DefaultDestPath),
                         opt.GetOr(if rw then OptsReadWrite else OptsReadOnly), masks))
  {
    var line := Join(SourceTokens(mss, url, dest, opt, rw));
    SourceLineValues(mss, url, dest, opt, rw, line);
    ParseSourceOf(line, mss, url, dest, opt, rw, mssValid, masks);
  }
}

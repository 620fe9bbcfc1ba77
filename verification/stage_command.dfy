/**
 * The staging command of one URL: the configured template with every
 * `$URLTOSTAGE` placeholder replaced by the URL (or the URL appended when there
 * is none), stderr sent away; and the verdict read from its standard output.
 */
module StageCommand {

  import opened Text

  const Placeholder: string := "$URLTOSTAGE"
  const Redirect: string := "2> /dev/null"

  /**
   * The pattern `\$URLTOSTAGE([ \t]|$)` matches at i: the placeholder followed by
   * a blank, by the end of the template, or by a newline that ends it (where
   * PCRE's `$` also matches).
   */
  predicate PlaceholderAt(t: string, i: nat)
  {
    var e := i + |Placeholder|;
    && e <= |t| && t[i..e] == Placeholder
    && (e == |t| || IsBlank(t[e]) || (e + 1 == |t| && t[e] == '\n'))
  }

  /** No match of the pattern starts before position n of t. */
  predicate NoMatchBefore(t: string, n: nat)
  {
    forall i: nat :: i < n ==> !PlaceholderAt(t, i)
  }

  /**
   * Global left-to-right substitution of the pattern by `rep`, with the number
   * of replacements. A blank after the placeholder belongs to the match and is
   * replaced with it; the end of the template, or a final newline, is not consumed.
   */
  function Substitute(t: string, rep: string): (r: (string, nat))
    decreases |t|
  {
    if |t| == 0 then ("", 0)
    else if PlaceholderAt(t, 0) then
      var rest := Substitute(t[Consumed(t)..], rep);
      (rep + rest.0, rest.1 + 1)
    else
      var rest := Substitute(t[1..], rep);
      ([t[0]] + rest.0, rest.1)
  }

  /** The length of a match at the start of `t`: the placeholder, and the blank after it when there is one. */
  function Consumed(t: string): (n: nat)
    requires PlaceholderAt(t, 0)
    ensures n <= |t|
  {
    |Placeholder| + (if |Placeholder| < |t| && IsBlank(t[|Placeholder|]) then 1 else 0)
  }

  /** The command before the redirection: the substituted template, or the template, a blank and the URL when nothing was replaced. */
  function CommandText(cmd: string, url: string): string
  {
    var sub := Substitute(cmd, url + " ");
    if sub.1 == 0 then cmd + " " + (url + " ") else sub.0
  }

  /** The command line Stage runs for `url` with template `cmd`. */
  function StageCommandLine(cmd: string, url: string): string
  {
    CommandText(cmd, url) + Redirect
  }

  /** Stage's verdict: success exactly when the captured output begins with "OK ". */
  predicate Verdict(out: string)
  {
    |out| >= 3 && out[..3] == "OK "
  }

  // ---------------------------------------------------------------------
  // Properties

  lemma PlaceholderAtShift(t: string, i: nat)
    requires |t| > 0
    ensures PlaceholderAt(t, i + 1) == PlaceholderAt(t[1..], i)
  {
    if i + 1 + |Placeholder| <= |t| {
      assert t[i + 1..i + 1 + |Placeholder|] == t[1..][i..i + |Placeholder|];
    }
  }

  /** No replacement happens exactly when the pattern matches nowhere, and then the template is unchanged. */
  lemma {:induction false} SubstituteNone(t: string, rep: string)
    ensures Substitute(t, rep).1 == 0 <==> forall i: nat :: !PlaceholderAt(t, i)
    ensures Substitute(t, rep).1 == 0 ==> Substitute(t, rep).0 == t
    decreases |t|
  {
    if |t| == 0 {
      assert forall i: nat :: !PlaceholderAt(t, i);
    } else if PlaceholderAt(t, 0) {
    } else {
      SubstituteNone(t[1..], rep);
      forall i: nat ensures PlaceholderAt(t, i + 1) == PlaceholderAt(t[1..], i) {
        PlaceholderAtShift(t, i);
      }
      if Substitute(t, rep).1 == 0 {
        forall i: nat ensures !PlaceholderAt(t, i) {
          if i > 0 { PlaceholderAtShift(t, i - 1); }
        }
        assert t == [t[0]] + t[1..];
      } else {
        var i: nat :| PlaceholderAt(t[1..], i);
        PlaceholderAtShift(t, i);
        assert PlaceholderAt(t, i + 1);
      }
    }
  }

  /** Text in which no match starts passes through the substitution untouched. */
  lemma {:induction false} SubstitutePlain(a: string, b: string, rep: string)
    requires NoMatchBefore(a + b, |a|)
    ensures Substitute(a + b, rep) == (a + Substitute(b, rep).0, Substitute(b, rep).1)
    decreases |a|
  {
    if |a| > 0 {
      var t := a + b;
      assert !PlaceholderAt(t, 0);
      assert t[1..] == a[1..] + b;
      forall i: nat | i < |a| - 1 ensures !PlaceholderAt(t[1..], i) {
        PlaceholderAtShift(t, i);
      }
      SubstitutePlain(a[1..], b, rep);
      var sb := Substitute(b, rep);
      assert Substitute(t, rep) == ([t[0]] + Substitute(t[1..], rep).0, Substitute(t[1..], rep).1);
      assert [a[0]] + (a[1..] + sb.0) == a + sb.0;
    } else {
      assert a + b == b;
      assert a + Substitute(b, rep).0 == Substitute(b, rep).0;
    }
  }

  /** A match starting before a placeholder lies wholly before it, so what follows the placeholder cannot create one. */
  lemma HeadNoMatch(a: string, x: string)
    requires NoMatchBefore(a + Placeholder, |a|)
    ensures NoMatchBefore(a + Placeholder + x, |a|)
  {
    var s := a + Placeholder;
    var t := s + x;
    forall i: nat | i < |a| ensures !PlaceholderAt(t, i) {
      var e := i + |Placeholder|;
      if e <= |a| {
        assert t[i..e] == s[i..e] && t[e] == s[e];
        assert e + 1 < |s| <= |t|;
        assert PlaceholderAt(t, i) ==> PlaceholderAt(s, i);
      } else if e <= |t| {
        PlaceholderDollarFirst();
        assert t[|a|] == s[|a|] == Placeholder[0];
        assert t[i..e][|a| - i] == t[|a|] == '$';
      }
    }
  }

  /** The placeholder's only '$' is its first character. */
  lemma PlaceholderDollarFirst()
    ensures forall k :: 0 < k < |Placeholder| ==> Placeholder[k] != '$'
  {
    assert Placeholder[1..] == "URLTOSTAGE";
    assert forall k :: 0 <= k < |Placeholder[1..]| ==> Placeholder[1..][k] != '$';
  }

  /** Text with no '$' starts no match, whatever follows it. */
  lemma DollarFreeNoMatch(a: string, x: string)
    requires forall i :: 0 <= i < |a| ==> a[i] != '$'
    ensures NoMatchBefore(a + x, |a|)
  {
    forall i: nat | i < |a| ensures !PlaceholderAt(a + x, i) {
      var e := i + |Placeholder|;
      if e <= |a + x| {
        assert (a + x)[i..e][0] == a[i];
      }
    }
  }

  lemma AppendAssoc(x: string, y: string, z: string)
    ensures x + y + z == x + (y + z)
  {
  }

  /** A placeholder followed by a blank is replaced together with that blank. */
  lemma SubstitutePlaceholderBlank(d: char, b: string, rep: string)
    requires IsBlank(d)
    ensures Substitute(Placeholder + [d] + b, rep) == (rep + Substitute(b, rep).0, Substitute(b, rep).1 + 1)
  {
    var db := [d] + b;
    var t := Placeholder + db;
    AppendAssoc(Placeholder, [d], b);
    assert t[..|Placeholder|] == Placeholder;
    assert t[|Placeholder|] == db[0] == d;
    assert PlaceholderAt(t, 0);
    assert Consumed(t) == |Placeholder| + 1;
    assert t[Consumed(t)..] == db[1..] == b;
  }

  /** A placeholder that ends the template is replaced. */
  lemma SubstitutePlaceholderLast(rep: string)
    ensures Substitute(Placeholder, rep) == (rep, 1)
  {
    assert PlaceholderAt(Placeholder, 0);
    assert Placeholder[|Placeholder|..] == "";
    assert rep + "" == rep;
  }

  /** Without a placeholder the URL is appended after a blank, followed by a blank and the redirection. */
  lemma StageCommandAppends(cmd: string, url: string)
    requires forall i: nat :: !PlaceholderAt(cmd, i)
    ensures StageCommandLine(cmd, url) == cmd + " " + url + " " + Redirect
  {
    SubstituteNone(cmd, url + " ");
  }

  /** One placeholder followed by a blank, in text with no other match, is replaced once, together with its blank. */
  lemma SubstituteOnce(a: string, d: char, b: string, rep: string)
    requires IsBlank(d)
    requires NoMatchBefore(a + Placeholder, |a|) && NoMatchBefore(b, |b|)
    ensures Substitute(a + Placeholder + [d] + b, rep) == (a + rep + b, 1)
  {
    assert b + "" == b;
    SubstitutePlain(b, "", rep);
    assert Substitute("", rep) == ("", 0);
    SubstitutePlaceholderBlank(d, b, rep);
    AppendAssoc(a, Placeholder + [d], b);
    AppendAssoc(a, Placeholder, [d]);
    AppendAssoc(Placeholder, [d], b);
    HeadNoMatch(a, [d] + b);
    AppendAssoc(a, Placeholder, [d] + b);
    SubstitutePlain(a, Placeholder + [d] + b, rep);
    AppendAssoc(a, rep, b);
  }

  /**
   * One placeholder followed by a blank and more words: the placeholder and its
   * blank become the URL and one blank, and the redirection is glued to the
   * last word.
   */
  lemma StageCommandReplaces(a: string, d: char, b: string, url: string)
    requires IsBlank(d)
    requires NoMatchBefore(a + Placeholder, |a|) && NoMatchBefore(b, |b|)
    ensures CommandText(a + Placeholder + [d] + b, url) == a + url + " " + b
    ensures StageCommandLine(a + Placeholder + [d] + b, url) == a + url + " " + b + Redirect
  {
    SubstituteOnce(a, d, b, url + " ");
    AppendAssoc(a, url, " ");
  }

  /** A placeholder ending the template: the URL and one blank end the command, then the redirection. */
  lemma StageCommandReplacesLast(a: string, url: string)
    requires NoMatchBefore(a + Placeholder, |a|)
    ensures StageCommandLine(a + Placeholder, url) == a + url + " " + Redirect
  {
    SubstitutePlaceholderLast(url + " ");
    SubstitutePlain(a, Placeholder, url + " ");
  }

  /** A placeholder followed by a newline that ends the template is replaced, and the newline kept. */
  lemma SubstitutePlaceholderNewline(rep: string)
    ensures Substitute(Placeholder + "\n", rep) == (rep + "\n", 1)
  {
    var t := Placeholder + "\n";
    assert t[..|Placeholder|] == Placeholder && t[|Placeholder|] == '\n';
    assert PlaceholderAt(t, 0) && Consumed(t) == |Placeholder|;
    assert t[Consumed(t)..] == "\n";
    assert !PlaceholderAt("\n", 0);
    assert "\n"[1..] == "";
    assert Substitute("\n", rep) == (['\n'] + "", 0);
    assert ['\n'] + "" == "\n";
  }

  /** A placeholder before a final newline: the URL and one blank, then the newline, then the redirection. */
  lemma StageCommandReplacesNewline(a: string, url: string)
    requires NoMatchBefore(a + Placeholder, |a|)
    ensures StageCommandLine(a + Placeholder + "\n", url) == a + url + " \n" + Redirect
  {
    SubstitutePlaceholderNewline(url + " ");
    HeadNoMatch(a, "\n");
    AppendAssoc(a, Placeholder, "\n");
    SubstitutePlain(a, Placeholder + "\n", url + " ");
    AppendAssoc(a, Placeholder, "\n");
  }

  /** Other shell variables in the template are left alone: `$HOME/bin/stage $URLTOSTAGE` runs the script on the URL. */
  lemma StageCommandShellVariable(url: string)
    ensures StageCommandLine("$HOME/bin/stage " + Placeholder, url) == "$HOME/bin/stage " + url + " " + Redirect
  {
    var a := "$HOME/bin/stage ";
    var s := a + Placeholder;
    forall i: nat | i < |a| ensures !PlaceholderAt(s, i) {
      var e := i + |Placeholder|;
      if i == 0 {
        assert s[i..e][1] == 'H';
      } else if e <= |a| {
        assert s[i..e][0] == a[i] != '$';
      } else if e <= |s| {
        PlaceholderDollarFirst();
        assert s[i..e][|a| - i] == s[|a|] == '$';
      }
    }
    StageCommandReplacesLast(a, url);
  }

  /** Any output that starts with "OK " is a success; "OK" alone, an empty output or an error text are failures. */
  lemma VerdictExamples(rest: string)
    ensures Verdict("OK " + rest)
    ensures !Verdict("OK") && !Verdict("") && !Verdict("ERROR timeout")
    ensures Verdict("OK staged 12MB")
  {
    assert ("OK " + rest)[..3] == "OK ";
    assert "OK staged 12MB"[..3] == "OK ";
    assert "ERROR timeout"[0] == 'E';
  }

  // ---------------------------------------------------------------------
  // The redirection glued to the last word

  /**
   * As written: with text after the placeholder the redirection is appended
   * with no blank, so the command `run $URLTOSTAGE --verbose` ends in
   * `--verbose2> /dev/null`, which the shell reads as the word `--verbose2`
   * followed by `> /dev/null`, discarding standard output.
   */
  lemma RedirectGluedToLastWord(url: string)
    ensures var line := StageCommandLine("run " + Placeholder + " --verbose", url);
      && line == "run " + url + " --verbose" + Redirect
      && line[|line| - |Redirect| - 1] == 'e'
      && line[|line| - |Redirect|..|line| - |Redirect| + 2] == "2>"
  {
    var a, b := "run ", "--verbose";
    assert " --verbose" == [' '] + b;
    AppendAssoc(a + Placeholder, [' '], b);
    DollarFreeNoMatch(a, Placeholder);
    DollarFreeNoMatch(b, "");
    assert b + "" == b;
    StageCommandReplaces(a, ' ', b, url);
    AppendAssoc(a + url, " ", b);
    var head := a + url + " " + b;
    assert head[|head| - 1] == 'e';
    RedirectAfter(head);
  }

  /** In `head + Redirect`, the character before the redirection is the last of `head`, and the redirection starts with "2>". */
  lemma RedirectAfter(head: string)
    requires |head| > 0
    ensures var line := head + Redirect;
      && line[|line| - |Redirect| - 1] == head[|head| - 1]
      && line[|line| - |Redirect|..|line| - |Redirect| + 2] == "2>"
  {
    var line := head + Redirect;
    assert line[|line| - |Redirect|..|line| - |Redirect| + 2] == Redirect[..2];
  }

  /** The blank put before the redirection: none when the command already ends in a blank. */
  function RedirectGap(line: string): string
  {
    if |line| > 0 && IsBlank(line[|line| - 1]) then "" else " "
  }

  /** Corrected: a blank separates the redirection from the command whenever the command does not already end in one. */
  function StageCommandSeparated(cmd: string, url: string): (r: string)
    ensures |r| > |Redirect| && r[|r| - |Redirect|..] == Redirect && IsBlank(r[|r| - |Redirect| - 1])
  {
    var line := CommandText(cmd, url);
    var gap := RedirectGap(line);
    assert |line + gap| > 0 && IsBlank((line + gap)[|line + gap| - 1]);
    line + gap + Redirect
  }

  /** For any command text: adding the gap differs from not adding it only by one blank, and not at all after a blank. */
  lemma GapAgrees(line: string)
    ensures var s := line + RedirectGap(line) + Redirect;
      var w := line + Redirect;
      && |w| >= |Redirect|
      && (s == w || s == w[..|w| - |Redirect|] + " " + Redirect)
      && (|w| > |Redirect| && IsBlank(w[|w| - |Redirect| - 1]) ==> s == w)
  {
    var w := line + Redirect;
    assert w[..|w| - |Redirect|] == line;
    if |w| > |Redirect| {
      assert w[|w| - |Redirect| - 1] == line[|line| - 1];
    }
    if RedirectGap(line) == "" {
      assert line + "" == line;
    }
  }

  /** The corrected line differs from the original only by the blank it adds, and is identical when the command already ended in a blank. */
  lemma SeparatedAgrees(cmd: string, url: string)
    ensures var s := StageCommandSeparated(cmd, url);
      var w := StageCommandLine(cmd, url);
      && |w| >= |Redirect|
      && (s == w || s == w[..|w| - |Redirect|] + " " + Redirect)
      && (|w| > |Redirect| && IsBlank(w[|w| - |Redirect| - 1]) ==> s == w)
    ensures (forall i: nat :: !PlaceholderAt(cmd, i)) ==> StageCommandSeparated(cmd, url) == StageCommandLine(cmd, url)
  {
    var line := CommandText(cmd, url);
    GapAgrees(line);
    if forall i: nat :: !PlaceholderAt(cmd, i) {
      SubstituteNone(cmd, url + " ");
      assert line == cmd + " " + (url + " ");
      assert RedirectGap(line) == "";
      assert line + "" == line;
    }
  }

  /** Corrected: with words after the placeholder, the redirection stays a word of its own. */
  lemma SeparatedReplaces(a: string, d: char, b: string, url: string)
    requires IsBlank(d) && |b| > 0 && !IsBlank(b[|b| - 1])
    requires NoMatchBefore(a + Placeholder, |a|) && NoMatchBefore(b, |b|)
    ensures StageCommandSeparated(a + Placeholder + [d] + b, url) == a + url + " " + b + " " + Redirect
  {
    var t := a + Placeholder + [d] + b;
    StageCommandReplaces(a, d, b, url);
    var head := a + url + " " + b;
    assert head[|head| - 1] == b[|b| - 1];
    assert RedirectGap(head) == " ";
  }
}

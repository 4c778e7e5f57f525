/** Shell steps written as here-documents (internal/cli/actions.go), and how a shell reads them back
    (POSIX Shell Command Language, section 2.7.4). */
module Heredoc {

  import opened Wrappers
  import opened Text

  // ---------- choosing a delimiter ----------

  const BASE := "CRABBOX_STEP"

  /** The first candidate is the plain word, the next ones are numbered from 2. */
  function Candidate(i: nat): string
    requires i >= 1
  {
    if i == 1 then BASE else BASE + "_" + Itoa(i)
  }

  lemma CandidateInjective(i: nat, j: nat)
    requires i >= 1 && j >= 1 && i != j
    ensures Candidate(i) != Candidate(j)
  {
    if i > 1 && j > 1 {
      assert Candidate(i)[13..] == Itoa(i) && Candidate(j)[13..] == Itoa(j);
      ItoaInjective(i, j);
    }
  }

  lemma CandidatePlain(i: nat)
    requires i >= 1
    ensures '\n' !in Candidate(i) && '\'' !in Candidate(i)
  {
    DigitsRead(i);
    NotInBase('\n');
    NotInBase('\'');
    if i > 1 {
      NotInParts('\n', BASE + "_", Itoa(i));
      NotInParts('\'', BASE + "_", Itoa(i));
    }
  }

  lemma NotInBase(c: char)
    requires c == '\n' || c == '\''
    ensures c !in BASE && c !in BASE + "_"
  {
  }

  lemma NotInParts(c: char, a: string, b: string)
    requires c !in a && c !in b
    ensures c !in a + b
  {
  }

  predicate OccursAt(s: string, sub: string, i: nat)
  {
    i + |sub| <= |s| && s[i..i + |sub|] == sub
  }

  /** `strings.Contains` */
  predicate Contains(s: string, sub: string)
  {
    exists i :: 0 <= i <= |s| && OccursAt(s, sub, i)
  }

  function Framed(s: string): string { "\n" + s + "\n" }

  function Lines(script: string): seq<string> { Split(script, '\n') }

  lemma FirstNewline(s: string, line: string, d: string)
    requires '\n' !in line && '\n' !in d && OccursAt(s, "\n" + d + "\n", 0)
    requires |line| + 2 <= |s| && s[..|line| + 2] == "\n" + line + "\n"
    ensures d == line
  {
    var sub, head := "\n" + d + "\n", "\n" + line + "\n";
    assert sub[|d| + 1] == '\n' && head[|line| + 1] == '\n';
    assert forall k :: 0 <= k < |sub| ==> s[k] == sub[k];
    assert forall k :: 0 <= k < |head| ==> s[k] == head[k];
    assert |d| == |line|;
    assert d == sub[1..|d| + 1] && line == head[1..|line| + 1];
    assert sub == s[..|d| + 2];
  }

  /** The frame of a text that starts with a line, taken apart. */
  lemma FrameOf(line: string, tail: string)
    ensures var s, t, n := Framed(line + "\n" + tail), Framed(tail), |line| + 1;
            && s == "\n" + line + t && n < |s| && s[n..] == t && s[..n + 1] == "\n" + line + "\n"
  {
  }

  lemma OccursLater(s: string, t: string, sub: string, n: nat, i: nat)
    requires n <= |s| && s[n..] == t
    ensures OccursAt(t, sub, i) <==> OccursAt(s, sub, n + i)
  {
    if i + |sub| <= |t| {
      SliceOfDrop(s, n, i, |sub|);
    }
  }

  lemma SliceOfDrop(s: string, n: nat, i: nat, k: nat)
    requires n + i + k <= |s|
    ensures s[n..][i..i + k] == s[n + i..n + i + k]
  {
    assert s[n..][i..] == s[n + i..];
    assert s[n..][i..i + k] == s[n..][i..][..k];
    assert s[n + i..n + i + k] == s[n + i..][..k];
  }

  lemma FoundInFrame(s: string, t: string, line: string, d: string, i: nat)
    requires '\n' !in line && '\n' !in d && s == "\n" + line + t && |line| + 2 <= |s|
    requires s[|line| + 1..] == t && s[..|line| + 2] == "\n" + line + "\n" && OccursAt(s, Framed(d), i)
    ensures line == d || (i >= |line| + 1 && OccursAt(t, Framed(d), i - |line| - 1))
  {
    var n := |line| + 1;
    assert s[i] == Framed(d)[0] == '\n';
    assert i == 0 || i >= n;
    if i == 0 {
      FirstNewline(s, line, d);
    } else {
      OccursLater(s, t, Framed(d), n, i - n);
    }
  }

  lemma FramedCons(line: string, tail: string, d: string)
    requires '\n' !in line && '\n' !in d
    ensures Contains(Framed(line + "\n" + tail), Framed(d)) <==> line == d || Contains(Framed(tail), Framed(d))
  {
    var s, t, sub, n := Framed(line + "\n" + tail), Framed(tail), Framed(d), |line| + 1;
    FrameOf(line, tail);
    if i :| 0 <= i <= |s| && OccursAt(s, sub, i) {
      FoundInFrame(s, t, line, d, i);
    }
    if line == d {
      assert OccursAt(s, sub, 0);
    }
    if i :| 0 <= i <= |t| && OccursAt(t, sub, i) {
      OccursLater(s, t, sub, n, i);
    }
  }

  lemma FramedOne(line: string, d: string)
    requires '\n' !in line && '\n' !in d
    ensures Contains(Framed(line), Framed(d)) <==> line == d
  {
    var s, sub := Framed(line), Framed(d);
    if i :| 0 <= i <= |s| && OccursAt(s, sub, i) {
      assert s[i] == sub[0] == '\n';
      assert i == 0;
      FirstNewline(s, line, d);
    }
    if line == d {
      assert OccursAt(s, sub, 0);
    }
  }

  /** The framed substring test asks exactly whether the word is a line of the script. */
  lemma {:induction false} ContainsIffLine(script: string, d: string)
    requires '\n' !in d
    ensures Contains(Framed(script), Framed(d)) <==> d in Lines(script)
    decreases |script|
  {
    if '\n' in script {
      var line, tail := SplitOnce(script, '\n');
      FramedCons(line, tail, d);
      ContainsIffLine(tail, d);
    } else {
      SplitPlain(script, '\n');
      FramedOne(script, d);
    }
  }

  function LineSet(script: string): set<string> { set line | line in Lines(script) }

  /** The `k`-th candidate is not a line of the script, and every earlier one is. */
  ghost predicate FirstFree(script: string, k: nat)
  {
    k >= 1 && Candidate(k) !in Lines(script) && forall j :: 1 <= j < k ==> Candidate(j) in Lines(script)
  }

  ghost predicate AreEarlier(passed: set<string>, k: nat)
  {
    forall d :: d in passed ==> exists j :: 1 <= j < k && d == Candidate(j)
  }

  lemma NotPassed(passed: set<string>, k: nat)
    requires k >= 1 && AreEarlier(passed, k)
    ensures Candidate(k) !in passed && AreEarlier(passed + {Candidate(k)}, k + 1)
  {
    forall j | 1 <= j < k ensures Candidate(j) != Candidate(k) {
      CandidateInjective(j, k);
    }
  }

  /** The search ends because every candidate it passes over is another line of the script. */
  method HeredocDelimiter(script: string) returns (delimiter: string)
    ensures delimiter !in Lines(script)
    ensures exists k :: FirstFree(script, k) && delimiter == Candidate(k)
  {
    delimiter := BASE;
    var i := 2;
    ghost var k := 1;
    ghost var passed: set<string> := {};
    CandidatePlain(1);
    ContainsIffLine(script, delimiter);
    while Contains(Framed(script), Framed(delimiter))
      invariant i == k + 1 && k >= 1 && delimiter == Candidate(k) && '\n' !in delimiter
      invariant Contains(Framed(script), Framed(delimiter)) <==> delimiter in Lines(script)
      invariant forall j :: 1 <= j < k ==> Candidate(j) in Lines(script)
      invariant passed <= LineSet(script) && AreEarlier(passed, k)
      decreases LineSet(script) - passed
    {
      NotPassed(passed, k);
      passed := passed + {delimiter};
      delimiter := BASE + "_" + Itoa(i);
      k, i := i, i + 1;
      CandidatePlain(k);
      ContainsIffLine(script, delimiter);
    }
  }

  // ---------- writing a step ----------

  /** Each single quote closes the quotes, adds itself escaped and opens them again. */
  function Requoted(s: string): string
  {
    if s == "" then "" else (if s[0] == '\'' then "'\\''" else [s[0]]) + Requoted(s[1..])
  }

  function ShellQuote(s: string): string { "'" + Requoted(s) + "'" }

  datatype Step = Step(bash: bool, workdir: string, script: string)

  function Command(bash: bool): string { if bash then "__crabbox_run_bash " else "__crabbox_run_sh " }

  function Block(step: Step, delimiter: string): string
  {
    Command(step.bash) + Redirected(step.workdir, step.script, delimiter)
  }

  function Redirected(workdir: string, script: string, delimiter: string): string
  {
    ShellQuote(workdir) + " <<'" + delimiter + "'\n" + script + "\n" + delimiter + "\n"
  }

  /** The text is the blocks of the steps, each with the first delimiter free for its script. */
  ghost predicate Written(steps: seq<Step>, text: string)
    decreases |steps|
  {
    if steps == [] then text == ""
    else
      var last := steps[|steps| - 1];
      exists before, k :: FirstFree(last.script, k) && text == before + Block(last, Candidate(k))
          && Written(steps[..|steps| - 1], before)
  }

  class Builder {

    var text: string
    ghost var steps: seq<Step>

    ghost predicate Valid() reads this { Written(steps, text) }

    constructor ()
      ensures Valid() && text == "" && steps == []
    {
      text, steps := "", [];
    }

    /** Appends one step, or refuses a shell it does not know and leaves the text alone. */
    method AppendRunStep(shellName: string, workdir: string, script: string) returns (ok: bool)
      requires Valid()
      modifies this
      ensures Valid()
      ensures ok <==> TrimSpace(shellName) in {"", "bash", "sh"}
      ensures ok ==> steps == old(steps) + [Step(TrimSpace(shellName) != "sh", workdir, script)]
      ensures !ok ==> text == old(text) && steps == old(steps)
      ensures old(text) <= text
    {
      var shell := TrimSpace(shellName);
      var delimiter := HeredocDelimiter(script);
      if shell == "" || shell == "bash" {
        text := text + Block(Step(true, workdir, script), delimiter);
      } else if shell == "sh" {
        text := text + Block(Step(false, workdir, script), delimiter);
      } else {
        return false;
      }
      ghost var step := Step(shell != "sh", workdir, script);
      ghost var k :| FirstFree(script, k) && delimiter == Candidate(k);
      WrittenMore(steps, old(text), step, k);
      steps := steps + [step];
      return true;
    }
  }

  lemma WrittenMore(steps: seq<Step>, text: string, step: Step, k: nat)
    requires Written(steps, text) && FirstFree(step.script, k)
    ensures Written(steps + [step], text + Block(step, Candidate(k)))
  {
    var all := steps + [step];
    assert all[..|all| - 1] == steps && all[|all| - 1] == step;
    assert Written(all[..|all| - 1], text);
  }

  // ---------- reading it back ----------

  /** What stands before and after the first occurrence of `c`. */
  function Cut(s: string, c: char): Option<(string, string)>
  {
    if s == "" then None
    else if s[0] == c then Some(("", s[1..]))
    else match Cut(s[1..], c)
      case None => None
      case Some((before, after)) => Some(([s[0]] + before, after))
  }

  lemma {:induction false} CutAt(before: string, c: char, after: string)
    requires c !in before
    ensures Cut(before + [c] + after, c) == Some((before, after))
  {
    var s := before + [c] + after;
    if before == "" {
      assert s[1..] == after;
    } else {
      assert s[1..] == before[1..] + [c] + after;
      CutAt(before[1..], c, after);
      assert [before[0]] + before[1..] == before;
    }
  }

  lemma CutShorter(s: string, c: char)
    ensures Cut(s, c).Some? ==> |Cut(s, c).value.0| + 1 + |Cut(s, c).value.1| == |s|
  {
  }

  /** Lines up to one that is exactly the delimiter, and what follows it. */
  function ReadBody(s: string, delimiter: string): (r: Option<(string, string)>)
    ensures r.Some? ==> |r.value.1| <= |s|
    decreases |s|
  {
    CutShorter(s, '\n');
    match Cut(s, '\n')
    case None => None
    case Some((line, rest)) =>
      if line == delimiter then Some(("", rest))
      else match ReadBody(rest, delimiter)
        case None => None
        case Some((body, after)) => Some((line + "\n" + body, after))
  }

  /** The rest of a single-quoted word: text up to the closing quote, through escaped quotes. */
  function ReadQuoted(s: string): (r: Option<(string, string)>)
    ensures r.Some? ==> |r.value.1| <= |s|
    decreases |s|
  {
    if s == "" then None
    else if s[0] != '\'' then
      match ReadQuoted(s[1..])
      case None => None
      case Some((word, after)) => Some(([s[0]] + word, after))
    else if |s| >= 4 && s[1] == '\\' && s[2] == '\'' && s[3] == '\'' then
      match ReadQuoted(s[4..])
      case None => None
      case Some((word, after)) => Some(("'" + word, after))
    else Some(("", s[1..]))
  }

  function Strip(s: string, prefix: string): (r: Option<string>)
    ensures r.Some? ==> |r.value| <= |s|
  {
    if prefix <= s then Some(s[|prefix|..]) else None
  }

  /** A command with one quoted argument and a here-document: the argument, the body, what follows. */
  function ReadRedirected(s: string): (r: Option<(string, string, string)>)
    ensures r.Some? ==> |r.value.2| < |s|
  {
    var open := Strip(s, "'");
    if open.None? then None else
    var word := ReadQuoted(open.value);
    if word.None? then None else
    var redirect := Strip(word.value.1, " <<'");
    if redirect.None? then None else
    CutShorter(redirect.value, '\'');
    var delimiter := Cut(redirect.value, '\'');
    if delimiter.None? then None else
    var newline := Strip(delimiter.value.1, "\n");
    if newline.None? then None else
    var body := ReadBody(newline.value, delimiter.value.0);
    if body.None? then None else
    Some((word.value.0, body.value.0, body.value.1))
  }

  function ReadStep(s: string): (r: Option<(Step, string)>)
    ensures r.Some? ==> |r.value.1| < |s|
  {
    var bash, sh := Strip(s, Command(true)), Strip(s, Command(false));
    if bash.Some? then
      match ReadRedirected(bash.value)
      case None => None
      case Some((workdir, body, after)) => Some((Step(true, workdir, body), after))
    else if sh.Some? then
      match ReadRedirected(sh.value)
      case None => None
      case Some((workdir, body, after)) => Some((Step(false, workdir, body), after))
    else None
  }

  /** A shell that runs the text sees these commands, each with the body on its standard input. */
  function ReadSteps(s: string): Option<seq<Step>>
    decreases |s|
  {
    if s == "" then Some([])
    else match ReadStep(s)
      case None => None
      case Some((step, after)) =>
        match ReadSteps(after)
        case None => None
        case Some(rest) => Some([step] + rest)
  }

  // ---------- the round trip ----------

  /** A body that starts with a line other than the delimiter. */
  lemma ReadLine(line: string, rest: string, delimiter: string)
    requires '\n' !in line && line != delimiter && ReadBody(rest, delimiter).Some?
    ensures var body := ReadBody(rest, delimiter).value;
            ReadBody(line + ['\n'] + rest, delimiter) == Some((line + "\n" + body.0, body.1))
  {
    CutAt(line, '\n', rest);
  }

  lemma ReadEnd(delimiter: string, rest: string)
    requires '\n' !in delimiter
    ensures ReadBody(delimiter + ['\n'] + rest, delimiter) == Some(("", rest))
  {
    CutAt(delimiter, '\n', rest);
  }

  lemma {:induction false} BodyRoundTrip(script: string, delimiter: string, rest: string)
    requires '\n' !in delimiter && delimiter !in Lines(script)
    ensures ReadBody(script + "\n" + delimiter + "\n" + rest, delimiter) == Some((script + "\n", rest))
    decreases |script|
  {
    if '\n' in script {
      var line, tail := SplitOnce(script, '\n');
      assert Lines(script)[0] == line && forall x :: x in Lines(tail) ==> x in Lines(script);
      BodyRoundTrip(tail, delimiter, rest);
      LineFirst(script, line, tail, delimiter, rest);
    } else {
      SplitPlain(script, '\n');
      assert Lines(script)[0] == script;
      ReadEnd(delimiter, rest);
      ReadLine(script, delimiter + ['\n'] + rest, delimiter);
      assert script + "\n" + delimiter + "\n" + rest == script + ['\n'] + (delimiter + ['\n'] + rest);
      assert script + "\n" + "" == script + "\n";
    }
  }

  lemma LineFirst(script: string, line: string, tail: string, delimiter: string, rest: string)
    requires script == line + ['\n'] + tail && '\n' !in line && line != delimiter
    requires ReadBody(tail + "\n" + delimiter + "\n" + rest, delimiter) == Some((tail + "\n", rest))
    ensures ReadBody(script + "\n" + delimiter + "\n" + rest, delimiter) == Some((script + "\n", rest))
  {
    var after := tail + "\n" + delimiter + "\n" + rest;
    ReadLine(line, after, delimiter);
    assert script + "\n" + delimiter + "\n" + rest == line + ['\n'] + after;
    assert line + "\n" + (tail + "\n") == script + "\n";
  }

  /** Quoting round trip, when what follows the word cannot be taken for an escaped quote. */
  lemma {:induction false} QuoteRoundTrip(word: string, rest: string)
    requires rest != "" && rest[0] != '\\'
    ensures ReadQuoted(Requoted(word) + "'" + rest) == Some((word, rest))
  {
    var s := Requoted(word) + "'" + rest;
    if word == "" {
      assert s == "'" + rest && s[1..] == rest;
      assert s[1] == rest[0];
    } else {
      var tail := Requoted(word[1..]) + "'" + rest;
      QuoteRoundTrip(word[1..], rest);
      if word[0] == '\'' {
        assert s == "'\\''" + tail;
        EscapedQuote(tail, word[1..], rest);
        assert "'" + word[1..] == word;
      } else {
        assert s == [word[0]] + tail;
        PlainCharacter(word[0], tail, word[1..], rest);
        assert [word[0]] + word[1..] == word;
      }
    }
  }

  lemma EscapedQuote(tail: string, word: string, rest: string)
    requires ReadQuoted(tail) == Some((word, rest))
    ensures ReadQuoted("'\\''" + tail) == Some(("'" + word, rest))
  {
    var s := "'\\''" + tail;
    assert s[4..] == tail;
    assert s[0] == '\'' && s[1] == '\\' && s[2] == '\'' && s[3] == '\'';
  }

  lemma PlainCharacter(c: char, tail: string, word: string, rest: string)
    requires c != '\'' && ReadQuoted(tail) == Some((word, rest))
    ensures ReadQuoted([c] + tail) == Some(([c] + word, rest))
  {
    assert ([c] + tail)[1..] == tail;
  }

  lemma StripPrefix(prefix: string, rest: string)
    ensures Strip(prefix + rest, prefix) == Some(rest)
  {
    assert (prefix + rest)[|prefix|..] == rest;
  }

  lemma RedirectedRoundTrip(workdir: string, script: string, delimiter: string, rest: string)
    requires '\n' !in delimiter && '\'' !in delimiter && delimiter !in Lines(script)
    ensures ReadRedirected(Redirected(workdir, script, delimiter) + rest) == Some((workdir, script + "\n", rest))
  {
    var s := Redirected(workdir, script, delimiter) + rest;
    var body := script + "\n" + delimiter + "\n" + rest;
    var named := delimiter + ['\''] + ("\n" + body);
    var redirect := " <<'" + named;
    var quoted := Requoted(workdir) + "'" + redirect;
    assert s == "'" + quoted;
    StripPrefix("'", quoted);
    QuoteRoundTrip(workdir, redirect);
    StripPrefix(" <<'", named);
    CutAt(delimiter, '\'', "\n" + body);
    StripPrefix("\n", body);
    BodyRoundTrip(script, delimiter, rest);
  }

  /** The step as a shell sees it: the script with the newline that ends its last line. */
  function Seen(step: Step): Step { step.(script := step.script + "\n") }

  lemma Associates(a: string, b: string, c: string)
    ensures (a + b) + c == a + (b + c)
  {
  }

  lemma StepRoundTrip(step: Step, k: nat, rest: string)
    requires FirstFree(step.script, k)
    ensures ReadStep(Block(step, Candidate(k)) + rest) == Some((Seen(step), rest))
  {
    var d := Candidate(k);
    CandidatePlain(k);
    var tail := Redirected(step.workdir, step.script, d) + rest;
    var s := Command(step.bash) + tail;
    Associates(Command(step.bash), Redirected(step.workdir, step.script, d), rest);
    StripPrefix(Command(step.bash), tail);
    RedirectedRoundTrip(step.workdir, step.script, d, rest);
    assert Command(true)[14] == 'b' && Command(false)[14] == 's';
    assert !step.bash ==> s[14] == 's';
  }

  function SeenAll(steps: seq<Step>): seq<Step> { seq(|steps|, i requires 0 <= i < |steps| => Seen(steps[i])) }

  lemma ReadOneMore(s: string, step: Step, after: string, more: seq<Step>)
    requires ReadStep(s) == Some((step, after)) && ReadSteps(after) == Some(more)
    ensures ReadSteps(s) == Some([step] + more)
  {
    assert |after| < |s|;
  }

  lemma SeenSnoc(steps: seq<Step>, more: seq<Step>)
    requires steps != []
    ensures SeenAll(steps[..|steps| - 1]) + ([Seen(steps[|steps| - 1])] + more) == SeenAll(steps) + more
  {
  }

  /** Whatever the scripts and directories hold, a shell reads back exactly the steps written. */
  lemma {:induction false} WrittenReadsBack(steps: seq<Step>, text: string, more: seq<Step>, after: string)
    requires Written(steps, text) && ReadSteps(after) == Some(more)
    ensures ReadSteps(text + after) == Some(SeenAll(steps) + more)
    decreases |steps|
  {
    if steps == [] {
      assert text + after == after && SeenAll(steps) + more == more;
    } else {
      var n := |steps| - 1;
      var last := steps[n];
      var before, k :|
          FirstFree(last.script, k) && text == before + Block(last, Candidate(k)) && Written(steps[..n], before);
      var tail := Block(last, Candidate(k)) + after;
      StepRoundTrip(last, k, after);
      ReadOneMore(tail, Seen(last), after, more);
      WrittenReadsBack(steps[..n], before, [Seen(last)] + more, tail);
      Associates(before, Block(last, Candidate(k)), after);
      SeenSnoc(steps, more);
    }
  }

  lemma StepsRoundTrip(steps: seq<Step>, text: string)
    requires Written(steps, text)
    ensures ReadSteps(text) == Some(SeenAll(steps))
  {
    WrittenReadsBack(steps, text, [], "");
    assert text + "" == text && SeenAll(steps) + [] == SeenAll(steps);
  }
}

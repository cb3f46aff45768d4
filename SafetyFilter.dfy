/**
 * The command safety filter of the bridge worker (`is_dangerous`): a
 * case-insensitive substring deny-list. It is a heuristic guard, not a
 * sandbox: it blocks any command whose text mentions a listed pattern.
 */
module SafetyFilter {

  import opened Text

  /** The deny-list, in the order the worker scans it. */
  const DangerousCommands: seq<string> := [
    "rm -rf /", "mkfs", "dd if=", ":(){:|:&};:", "fork bomb",
    "format c:", "del /f /s /q", "shutdown", "reboot"
  ]

  /** `any(d in s for d in patterns)`, scanning `patterns` from the front. */
  function AnyContained(patterns: seq<string>, s: string): (r: bool)
    ensures r <==> exists i :: 0 <= i < |patterns| && Contains(s, patterns[i])
  {
    if patterns == [] then false
    else Contains(s, patterns[0]) || AnyContained(patterns[1..], s)
  }

  /** Every deny-list entry starts and ends with a non-whitespace character. */
  lemma PatternsAreTrimmed()
    ensures forall i :: 0 <= i < |DangerousCommands| ==>
      var d := DangerousCommands[i];
      d != [] && !IsSpace(d[0]) && !IsSpace(d[|d| - 1])
  {
  }

  /**
   * `is_dangerous(cmd)`: the command, lower-cased and stripped, contains a
   * deny-list entry. Because every entry is free of surrounding whitespace,
   * the strip never matters: the verdict is a plain substring test on the
   * lower-cased command.
   */
  function IsDangerous(cmd: string): (r: bool)
    ensures r <==> exists i :: 0 <= i < |DangerousCommands| && Contains(Lower(cmd), DangerousCommands[i])
  {
    PatternsAreTrimmed();
    forall i | 0 <= i < |DangerousCommands|
      ensures Contains(Strip(Lower(cmd)), DangerousCommands[i]) <==> Contains(Lower(cmd), DangerousCommands[i])
    {
      ContainsStripped(Lower(cmd), DangerousCommands[i]);
    }
    AnyContained(DangerousCommands, Strip(Lower(cmd)))
  }

  /** Changing the letter case of a command never changes the verdict. */
  lemma CaseNeverUnblocks(a: string, b: string)
    requires SameUpToCase(a, b)
    ensures IsDangerous(a) <==> IsDangerous(b)
  {
    SameUpToCaseLower(a, b);
  }

  lemma LowerConcat(a: string, b: string)
    ensures Lower(a + b) == Lower(a) + Lower(b)
  {
  }

  lemma ContainsInContext(s: string, p: string, pre: string, post: string)
    requires Contains(s, p)
    ensures Contains(pre + s + post, p)
  {
    var i: nat :| i <= |s| && OccursAt(s, p, i);
    assert (pre + s + post)[|pre| + i..|pre| + i + |p|] == s[i..i + |p|];
    assert OccursAt(pre + s + post, p, |pre| + i);
  }

  /** Surrounding a blocked command with more text never unblocks it. */
  lemma ContextNeverUnblocks(cmd: string, pre: string, post: string)
    requires IsDangerous(cmd)
    ensures IsDangerous(pre + cmd + post)
  {
    var i :| 0 <= i < |DangerousCommands| && Contains(Lower(cmd), DangerousCommands[i]);
    LowerConcat(pre + cmd, post);
    LowerConcat(pre, cmd);
    ContainsInContext(Lower(cmd), DangerousCommands[i], Lower(pre), Lower(post));
  }

  lemma ContainsSelf(s: string)
    ensures Contains(s, s)
  {
    assert OccursAt(s, s, 0);
  }

  /** The worked example: `rm -rf /` is blocked without being run. */
  lemma BlocksRecursiveRootDelete()
    ensures IsDangerous("rm -rf /")
  {
    var s := DangerousCommands[0];
    LowerOfNoUpper(s);
    ContainsSelf(s);
    assert Contains(Lower(s), DangerousCommands[0]);
  }

  /** Every deny-list entry is already in lower case. */
  lemma PatternsAreLower()
    ensures forall i :: 0 <= i < |DangerousCommands| ==> Lower(DangerousCommands[i]) == DangerousCommands[i]
  {
    forall i | 0 <= i < |DangerousCommands|
      ensures Lower(DangerousCommands[i]) == DangerousCommands[i]
    {
      LowerOfNoUpper(DangerousCommands[i]);
    }
  }

  /** Every deny-list entry, written in any letter case, is itself blocked. */
  lemma EveryPatternBlocked(cmd: string, k: nat)
    requires k < |DangerousCommands| && SameUpToCase(cmd, DangerousCommands[k])
    ensures IsDangerous(cmd)
  {
    PatternsAreLower();
    assert cmd[0..|cmd|] == cmd;
    assert EmbedsUpToCase(cmd, DangerousCommands[k]);
    DangerousIffEmbedsPattern(cmd);
  }

  /** A slice of `s`, written in any case, equal to `p` once lower-cased. */
  predicate EmbedsUpToCase(s: string, p: string) {
    exists i, j :: 0 <= i <= j <= |s| && SameUpToCase(s[i..j], p)
  }

  /**
   * The occurrence argument over any lower-case image, stated apart from
   * `Lower` so that its recursive definition stays out of the proof.
   */
  lemma ImageOccurrenceEmbeds(s: string, l: string, p: string, lp: string, i: nat)
    requires LowerImage(s, l) && LowerImage(p, lp) && lp == p && OccursAt(l, p, i)
    ensures i + |p| <= |s| && SameUpToCase(s[i..i + |p|], p)
  {
    var w := s[i..i + |p|];
    forall t | 0 <= t < |p|
      ensures LowerChar(w[t]) == LowerChar(p[t])
    {
      assert l[i..i + |p|][t] == p[t];
      assert w[t] == s[i + t];
    }
  }

  /** An occurrence in the lower-cased text is a slice equal to the pattern up to case. */
  lemma LowerOccurrenceEmbeds(s: string, p: string, i: nat)
    requires Lower(p) == p && OccursAt(Lower(s), p, i)
    ensures i + |p| <= |s| && SameUpToCase(s[i..i + |p|], p)
  {
    LowerIsImage(s);
    LowerIsImage(p);
    ImageOccurrenceEmbeds(s, Lower(s), p, Lower(p), i);
  }

  /** A slice equal to the pattern up to case is an occurrence in the lower-cased text. */
  lemma EmbeddingOccursLower(s: string, p: string, i: nat, j: nat)
    requires Lower(p) == p && i <= j <= |s| && SameUpToCase(s[i..j], p)
    ensures OccursAt(Lower(s), p, i)
  {
    forall t | 0 <= t < |p|
      ensures Lower(s)[i..j][t] == p[t]
    {
      assert s[i..j][t] == s[i + t];
      assert LowerChar(p[t]) == Lower(p)[t];
    }
    assert Lower(s)[i..j] == p;
  }

  lemma ContainsLowerIffEmbeds(s: string, p: string)
    requires Lower(p) == p
    ensures Contains(Lower(s), p) <==> EmbedsUpToCase(s, p)
  {
    if Contains(Lower(s), p) {
      var i: nat :| i <= |Lower(s)| && OccursAt(Lower(s), p, i);
      LowerOccurrenceEmbeds(s, p, i);
    }
    if EmbedsUpToCase(s, p) {
      var i, j :| 0 <= i <= j <= |s| && SameUpToCase(s[i..j], p);
      EmbeddingOccursLower(s, p, i, j);
    }
  }

  /**
   * The verdict, in both directions: a command is blocked exactly when some
   * slice of it is a deny-list entry written in any letter case.
   */
  lemma DangerousIffEmbedsPattern(cmd: string)
    ensures IsDangerous(cmd) <==>
      exists k :: 0 <= k < |DangerousCommands| && EmbedsUpToCase(cmd, DangerousCommands[k])
  {
    PatternsAreLower();
    forall k | 0 <= k < |DangerousCommands|
      ensures Contains(Lower(cmd), DangerousCommands[k]) <==> EmbedsUpToCase(cmd, DangerousCommands[k])
    {
      ContainsLowerIffEmbeds(cmd, DangerousCommands[k]);
    }
  }

  /** The match is on substrings: a pattern inside an argument blocks too. */
  lemma BlocksEmbeddedShutdown(cmd: string)
    requires cmd == "sudo Shutdown -h now"
    ensures IsDangerous(cmd)
  {
    assert SameUpToCase(cmd[5..13], DangerousCommands[7]);
    DangerousIffEmbedsPattern(cmd);
  }

  lemma ContainsNeedsFirstChar(s: string, p: string)
    requires p != [] && Contains(s, p)
    ensures |p| <= |s|
    ensures exists i :: 0 <= i < |s| && s[i] == p[0]
  {
    var i: nat :| i <= |s| && OccursAt(s, p, i);
    assert s[i] == s[i..i + |p|][0];
  }

  /** An ordinary command mentions no pattern and is let through. */
  lemma AllowsEcho(cmd: string)
    requires cmd == "echo hi"
    ensures !IsDangerous(cmd)
  {
    var s := Lower(cmd);
    assert s == cmd by {
      assert forall j :: 0 <= j < |cmd| ==> !IsUpper(cmd[j]);
    }
    forall k | 0 <= k < |DangerousCommands|
      ensures !Contains(s, DangerousCommands[k])
    {
      var d := DangerousCommands[k];
      if Contains(s, d) {
        ContainsNeedsFirstChar(s, d);
        assert false;
      }
    }
  }
}

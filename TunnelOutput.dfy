/** The classification of cloudflared's output lines: the quick-tunnel URL
    (`https://[a-z0-9-]+\.trycloudflare\.com`, matched by hand) and the
    error markers; and the effect of a sequence of lines on the pending URL
    and error for one port, where each later hit overwrites the earlier. */
module TunnelOutput {
  import opened Common
  import opened Strings

  const UrlPrefix: string := "https://"
  const UrlSuffix: string := ".trycloudflare.com"

  /** The character class `[a-z0-9-]`. */
  predicate IsHostChar(c: char) {
    ('a' <= c <= 'z') || ('0' <= c <= '9') || c == '-'
  }

  predicate AllHostChars(r: string) {
    forall k :: 0 <= k < |r| ==> IsHostChar(r[k])
  }

  /** A string the pattern matches exactly. */
  predicate IsTunnelUrl(u: string) {
    |u| > |UrlPrefix| + |UrlSuffix|
    && u[..|UrlPrefix|] == UrlPrefix
    && u[|u| - |UrlSuffix|..] == UrlSuffix
    && AllHostChars(u[|UrlPrefix|..|u| - |UrlSuffix|])
  }

  /** The length of the run of host characters of `s` starting at `i`. */
  function RunLength(s: string, i: nat): (k: nat)
    requires i <= |s|
    ensures i + k <= |s|
    ensures forall j :: i <= j < i + k ==> IsHostChar(s[j])
    ensures i + k < |s| ==> !IsHostChar(s[i + k])
    decreases |s| - i
  {
    if i == |s| || !IsHostChar(s[i]) then 0 else 1 + RunLength(s, i + 1)
  }

  /** The match starting at `i`. `[a-z0-9-]+` is greedy and `.` is not in
      the class, so the only candidate is the whole run after the prefix. */
  function MatchAt(s: string, i: nat): Option<string>
    requires i <= |s|
  {
    if !IsPrefix(UrlPrefix, s[i..]) then None
    else
      var j := i + |UrlPrefix|;
      var k := RunLength(s, j);
      if k > 0 && IsPrefix(UrlSuffix, s[j + k..]) then Some(s[i..j + k + |UrlSuffix|]) else None
  }

  /** A match found at `i` is a URL of the pattern occurring at `i`. */
  lemma MatchAtSound(s: string, i: nat)
    requires i <= |s| && MatchAt(s, i).Some?
    ensures IsTunnelUrl(MatchAt(s, i).value) && OccursAt(s, MatchAt(s, i).value, i)
  {
    var u := MatchAt(s, i).value;
    var j := i + |UrlPrefix|;
    var k := RunLength(s, j);
    assert IsPrefix(UrlPrefix, s[i..]);
    assert s[i..j] == s[i..][..|UrlPrefix|] == UrlPrefix;
    assert k > 0 && IsPrefix(UrlSuffix, s[j + k..]);
    assert s[j + k..j + k + |UrlSuffix|] == s[j + k..][..|UrlSuffix|] == UrlSuffix;
    assert u == s[i..j + k + |UrlSuffix|];
    assert |u| == |UrlPrefix| + k + |UrlSuffix|;
    assert u[..|UrlPrefix|] == s[i..j];
    assert u[|u| - |UrlSuffix|..] == s[j + k..j + k + |UrlSuffix|];
    var mid := u[|UrlPrefix|..|u| - |UrlSuffix|];
    forall t | 0 <= t < |mid| ensures IsHostChar(mid[t]) {
      assert mid[t] == s[j + t];
    }
  }

  /** A run of `m` host characters ended by another character has length `m`. */
  lemma {:induction false} RunLengthExact(s: string, j: nat, m: nat)
    requires j + m < |s|
    requires forall t :: j <= t < j + m ==> IsHostChar(s[t])
    requires !IsHostChar(s[j + m])
    ensures RunLength(s, j) == m
    decreases m
  {
    if m > 0 {
      RunLengthExact(s, j + 1, m - 1);
    }
  }

  /** Conversely, wherever a URL of the pattern starts, the match at that
      position is exactly that URL. */
  lemma MatchAtComplete(s: string, i: nat, u: string)
    requires IsTunnelUrl(u) && OccursAt(s, u, i)
    ensures MatchAt(s, i) == Some(u)
  {
    var j := i + |UrlPrefix|;
    var r := u[|UrlPrefix|..|u| - |UrlSuffix|];
    assert s[i..i + |u|] == u;
    assert s[i..][..|UrlPrefix|] == u[..|UrlPrefix|];
    forall t | j <= t < j + |r| ensures IsHostChar(s[t]) {
      assert s[t] == u[t - i] == r[t - j];
    }
    assert s[j + |r|] == u[|u| - |UrlSuffix|] == '.';
    RunLengthExact(s, j, |r|);
    var k := RunLength(s, j);
    assert s[j + k..][..|UrlSuffix|] == u[|u| - |UrlSuffix|..];
    assert s[i..j + k + |UrlSuffix|] == u;
  }

  /** Prefix, a non-empty run of host characters, suffix: a URL of the pattern. */
  lemma BuildUrl(r: string)
    requires |r| > 0 && AllHostChars(r)
    ensures IsTunnelUrl(UrlPrefix + r + UrlSuffix)
  {
    var u := UrlPrefix + r + UrlSuffix;
    assert u[..|UrlPrefix|] == UrlPrefix;
    assert u[|u| - |UrlSuffix|..] == UrlSuffix;
    assert u[|UrlPrefix|..|u| - |UrlSuffix|] == r;
  }

  /** The leftmost match at or after `i`. */
  function FindUrlFrom(s: string, i: nat): Option<string>
    requires i <= |s|
    decreases |s| - i
  {
    if MatchAt(s, i).Some? then MatchAt(s, i)
    else if i == |s| then None
    else FindUrlFrom(s, i + 1)
  }

  lemma FindUrlFromSpec(s: string, i: nat)
    requires i <= |s|
    ensures FindUrlFrom(s, i).Some? ==> exists p :: (i <= p <= |s| && MatchAt(s, p) == FindUrlFrom(s, i)
      && forall q :: i <= q < p ==> MatchAt(s, q).None?)
    ensures FindUrlFrom(s, i).None? ==> forall p :: i <= p <= |s| ==> MatchAt(s, p).None?
  {
    if FindUrlFrom(s, i).Some? {
      FindUrlFromFound(s, i);
    } else {
      FindUrlFromNone(s, i);
    }
  }

  lemma {:induction false} FindUrlFromFound(s: string, i: nat)
    requires i <= |s| && FindUrlFrom(s, i).Some?
    ensures exists p :: (i <= p <= |s| && MatchAt(s, p) == FindUrlFrom(s, i)
      && forall q :: i <= q < p ==> MatchAt(s, q).None?)
    decreases |s| - i
  {
    if MatchAt(s, i).None? {
      FindUrlFromFound(s, i + 1);
      var p :| i + 1 <= p <= |s| && MatchAt(s, p) == FindUrlFrom(s, i + 1)
        && forall q :: i + 1 <= q < p ==> MatchAt(s, q).None?;
      assert forall q :: i <= q < p ==> MatchAt(s, q).None?;
    }
  }

  lemma {:induction false} FindUrlFromNone(s: string, i: nat)
    requires i <= |s| && FindUrlFrom(s, i).None?
    ensures forall p :: i <= p <= |s| ==> MatchAt(s, p).None?
    decreases |s| - i
  {
    if i < |s| {
      FindUrlFromNone(s, i + 1);
    }
  }

  /** `Regex.Match(line, pattern)`: the leftmost match, if any. */
  function FindUrl(s: string): Option<string> {
    FindUrlFrom(s, 0)
  }

  /** The URL found is a URL of the pattern occurring in the line, and no
      URL of the pattern starts further left. */
  lemma FindUrlSpec(s: string)
    ensures FindUrl(s).Some? ==> IsTunnelUrl(FindUrl(s).value) && Contains(s, FindUrl(s).value)
    ensures FindUrl(s).Some? ==> exists p :: (0 <= p <= |s| && OccursAt(s, FindUrl(s).value, p)
      && forall q, v :: 0 <= q < p && IsTunnelUrl(v) ==> !OccursAt(s, v, q))
    ensures FindUrl(s).None? <==> forall q, v :: 0 <= q <= |s| && IsTunnelUrl(v) ==> !OccursAt(s, v, q)
  {
    FindUrlFromSpec(s, 0);
    if FindUrl(s).Some? {
      var p :| 0 <= p <= |s| && MatchAt(s, p) == FindUrl(s) && forall q :: 0 <= q < p ==> MatchAt(s, q).None?;
      MatchAtSound(s, p);
      var u := FindUrl(s).value;
      assert 0 <= p <= |s| - |u|;
      forall q, v | 0 <= q < p && IsTunnelUrl(v) ensures !OccursAt(s, v, q) {
        if OccursAt(s, v, q) {
          MatchAtComplete(s, q, v);
        }
      }
      assert !(forall q, v :: 0 <= q <= |s| && IsTunnelUrl(v) ==> !OccursAt(s, v, q)) by {
        assert IsTunnelUrl(u) && OccursAt(s, u, p);
      }
    } else {
      forall q, v | 0 <= q <= |s| && IsTunnelUrl(v) ensures !OccursAt(s, v, q) {
        if OccursAt(s, v, q) {
          MatchAtComplete(s, q, v);
        }
      }
    }
  }

  /** Where the line from position `p` on starts with a URL of the pattern
      and no earlier character is an `h`, that URL is the one found. */
  lemma FoundAfterPlainText(s: string, p: nat, u: string)
    requires IsTunnelUrl(u) && OccursAt(s, u, p)
    requires forall q :: 0 <= q < p ==> s[q] != 'h'
    ensures FindUrl(s) == Some(u)
  {
    MatchAtComplete(s, p, u);
    forall q | 0 <= q < p ensures MatchAt(s, q).None? {
      assert s[q..][0] == s[q];
    }
    FindUrlSkips(s, 0, p);
  }

  /** Text without an `h` followed by a URL of the pattern yields that URL. */
  lemma UrlAfterPlainText(text: string, r: string)
    requires |r| > 0 && AllHostChars(r)
    requires forall q :: 0 <= q < |text| ==> text[q] != 'h'
    ensures FindUrl(text + UrlPrefix + r + UrlSuffix) == Some(UrlPrefix + r + UrlSuffix)
  {
    var u := UrlPrefix + r + UrlSuffix;
    BuildUrl(r);
    var line := text + u;
    assert line == text + UrlPrefix + r + UrlSuffix;
    assert line[|text|..|text| + |u|] == u;
    forall q | 0 <= q < |text| ensures line[q] != 'h' {
      assert line[q] == text[q];
    }
    FoundAfterPlainText(line, |text|, u);
  }

  /** The line cloudflared prints when a quick tunnel is ready yields the
      URL it announces, e.g. `https://abcd-ef.trycloudflare.com`. */
  lemma ReadyLineUrl(r: string)
    requires |r| > 0 && AllHostChars(r)
    ensures FindUrl("Your tunnel is ready at " + UrlPrefix + r + UrlSuffix) == Some(UrlPrefix + r + UrlSuffix)
  {
    UrlAfterPlainText("Your tunnel is ready at ", r);
  }

  /** Positions without a match are skipped. */
  lemma {:induction false} FindUrlSkips(s: string, i: nat, p: nat)
    requires i <= p <= |s|
    requires forall q :: i <= q < p ==> MatchAt(s, q).None?
    ensures FindUrlFrom(s, i) == FindUrlFrom(s, p)
    decreases p - i
  {
    if i < p {
      FindUrlSkips(s, i + 1, p);
    }
  }

  const ErrorMarkers: seq<string> := ["error", "failed", "unable to", "permission denied"]

  /** The line, lower-cased, contains one of the error markers. */
  predicate IsErrorLine(line: string) {
    var lower := ToLower(line);
    Contains(lower, "error") || Contains(lower, "failed")
    || Contains(lower, "unable to") || Contains(lower, "permission denied")
  }

  /** A line can be both a URL line and an error line. */
  lemma UrlAndErrorOnOneLine(r: string)
    requires |r| > 0 && AllHostChars(r)
    ensures FindUrl("failed " + UrlPrefix + r + UrlSuffix) == Some(UrlPrefix + r + UrlSuffix)
    ensures IsErrorLine("failed " + UrlPrefix + r + UrlSuffix)
  {
    UrlAfterPlainText("failed ", r);
    var rest := " " + UrlPrefix + r + UrlSuffix;
    assert ToLower("failed") == "failed";
    ErrorMarkerAtStart("failed", rest, "failed");
    assert "failed" + rest == "failed " + UrlPrefix + r + UrlSuffix;
  }

  /** A line that starts with an error marker, in any letter case, is an
      error line. */
  lemma ErrorMarkerAtStart(head: string, rest: string, marker: string)
    requires marker in ErrorMarkers && ToLower(head) == marker
    ensures IsErrorLine(head + rest)
  {
    var line := head + rest;
    var lower := ToLower(line);
    forall k | 0 <= k < |marker| ensures lower[k] == marker[k] {
      assert line[k] == head[k];
    }
    assert lower[..|marker|] == marker;
    assert OccursAt(lower, marker, 0);
  }

  /** The pending value for a port after a sequence of lines: the value of
      the LAST line that hits, or the starting value when none does. */
  function UrlAfterLines(u: Option<string>, lines: seq<string>): (r: Option<string>)
    ensures u.Some? ==> r.Some?
    decreases |lines|
  {
    if lines == [] then u
    else
      var last := lines[|lines| - 1];
      if FindUrl(last).Some? then FindUrl(last) else UrlAfterLines(u, lines[..|lines| - 1])
  }

  function ErrorAfterLines(e: Option<string>, lines: seq<string>): (r: Option<string>)
    ensures e.Some? ==> r.Some?
    decreases |lines|
  {
    if lines == [] then e
    else
      var last := lines[|lines| - 1];
      if IsErrorLine(last) then Some(last) else ErrorAfterLines(e, lines[..|lines| - 1])
  }

  /** Feeding lines in two batches is feeding them at once. */
  lemma {:induction false} AfterLinesAppend(u: Option<string>, e: Option<string>, a: seq<string>, b: seq<string>)
    ensures UrlAfterLines(UrlAfterLines(u, a), b) == UrlAfterLines(u, a + b)
    ensures ErrorAfterLines(ErrorAfterLines(e, a), b) == ErrorAfterLines(e, a + b)
    decreases |b|
  {
    if b == [] {
      assert a + b == a;
    } else {
      var ab := a + b;
      assert ab[..|ab| - 1] == a + b[..|b| - 1];
      assert ab[|ab| - 1] == b[|b| - 1];
      AfterLinesAppend(u, e, a, b[..|b| - 1]);
    }
  }

  /** A later URL overwrites an earlier one; a line without one keeps it. */
  lemma LaterUrlWins(u: Option<string>, lines: seq<string>, line: string)
    ensures FindUrl(line).Some? ==> UrlAfterLines(u, lines + [line]) == FindUrl(line)
    ensures FindUrl(line).None? ==> UrlAfterLines(u, lines + [line]) == UrlAfterLines(u, lines)
  {
    assert (lines + [line])[..|lines|] == lines;
  }

  /** The pending value is the starting one exactly when no line hits;
      otherwise it is the hit of some line and no later line hits. */
  lemma {:induction false} UrlAfterLinesSpec(u: Option<string>, lines: seq<string>)
    ensures (forall i :: 0 <= i < |lines| ==> FindUrl(lines[i]).None?) ==> UrlAfterLines(u, lines) == u
    ensures (exists i :: 0 <= i < |lines| && FindUrl(lines[i]).Some?) ==>
      exists i :: 0 <= i < |lines| && UrlAfterLines(u, lines) == FindUrl(lines[i]) &&
        forall j :: i < j < |lines| ==> FindUrl(lines[j]).None?
    decreases |lines|
  {
    if lines != [] {
      var init := lines[..|lines| - 1];
      UrlAfterLinesSpec(u, init);
      if FindUrl(lines[|lines| - 1]).None? && exists i :: 0 <= i < |lines| && FindUrl(lines[i]).Some? {
        var i :| 0 <= i < |lines| && FindUrl(lines[i]).Some?;
        assert init[i] == lines[i];
        var i' :| 0 <= i' < |init| && UrlAfterLines(u, init) == FindUrl(init[i']) &&
          forall j :: i' < j < |init| ==> FindUrl(init[j]).None?;
        assert lines[i'] == init[i'];
        forall j | i' < j < |lines| ensures FindUrl(lines[j]).None? {
          if j < |init| {
            assert lines[j] == init[j];
          }
        }
      }
      if forall i :: 0 <= i < |lines| ==> FindUrl(lines[i]).None? {
        forall i | 0 <= i < |init| ensures FindUrl(init[i]).None? {
          assert init[i] == lines[i];
        }
      }
    }
  }

  /** A later error line overwrites an earlier one; other lines keep it. */
  lemma LaterErrorWins(e: Option<string>, lines: seq<string>, line: string)
    ensures IsErrorLine(line) ==> ErrorAfterLines(e, lines + [line]) == Some(line)
    ensures !IsErrorLine(line) ==> ErrorAfterLines(e, lines + [line]) == ErrorAfterLines(e, lines)
  {
    assert (lines + [line])[..|lines|] == lines;
  }

  /** The effect of a batch of lines on a pending value: the batch's own
      last hit if it has one, else the value as it was. */
  lemma {:induction false} AfterLinesFromNone(u: Option<string>, e: Option<string>, lines: seq<string>)
    ensures UrlAfterLines(u, lines) == (if UrlAfterLines(None, lines).Some? then UrlAfterLines(None, lines) else u)
    ensures ErrorAfterLines(e, lines) == (if ErrorAfterLines(None, lines).Some? then ErrorAfterLines(None, lines) else e)
    decreases |lines|
  {
    if lines != [] {
      AfterLinesFromNone(u, e, lines[..|lines| - 1]);
    }
  }

  /** A URL or an error line found is never empty, so an empty pending value
      means that nothing was found. */
  lemma {:induction false} FoundIsNonEmpty(lines: seq<string>)
    ensures UrlAfterLines(None, lines).Some? ==> UrlAfterLines(None, lines).value != ""
    ensures ErrorAfterLines(None, lines).Some? ==> ErrorAfterLines(None, lines).value != ""
    decreases |lines|
  {
    if lines != [] {
      var last := lines[|lines| - 1];
      FindUrlSpec(last);
      assert IsErrorLine(last) ==> |last| > 0 by {
        if |last| == 0 {
          assert ToLower(last) == [];
        }
      }
      FoundIsNonEmpty(lines[..|lines| - 1]);
    }
  }
}

/** The metrics of the profile card (`src/components/UserProfile.tsx`):
    per-status counts, the completion rate, the rewards of completed tasks,
    and the avatar initials (also used by the leaderboard). */
module UserProfile {
  import opened Collections
  import opened Data
  import opened Percent
  import opened Text

  /** `completionRate`: the rounded share of completed tasks, in percent,
      and 0 for an empty list. */
  function CompletionRate(ts: seq<Task>): (rate: int)
    ensures 0 <= rate <= 100
    ensures ts == [] ==> rate == 0
    ensures ts != [] ==> var done := |WithStatus(ts, Completed)|;
      2 * |ts| * rate <= 200 * done + |ts| < 2 * |ts| * rate + 2 * |ts|
  {
    if |ts| > 0 then
      var done := |WithStatus(ts, Completed)|;
      RoundedPercentBounds(done, |ts|);
      RoundedPercent(done, |ts|)
    else 0
  }

  /** Every task completed gives a rate of exactly 100. */
  lemma CompletionRateAllCompleted(ts: seq<Task>)
    requires ts != []
    requires forall i :: 0 <= i < |ts| ==> ts[i].status == Completed
    ensures CompletionRate(ts) == 100
  {
    WithStatusAllPass(ts, Completed);
    RoundedPercentWhole(|ts|);
  }

  /** One completed task out of three gives 33. */
  lemma CompletionRateOneOfThree(ts: seq<Task>)
    requires |ts| == 3 && |WithStatus(ts, Completed)| == 1
    ensures CompletionRate(ts) == 33
  {
  }

  /** More completed tasks in a list of the same length never lower the rate. */
  lemma CompletionRateMonotone(ts: seq<Task>, us: seq<Task>)
    requires |ts| == |us| > 0
    requires |WithStatus(ts, Completed)| <= |WithStatus(us, Completed)|
    ensures CompletionRate(ts) <= CompletionRate(us)
  {
    RoundedPercentMonotone(|WithStatus(ts, Completed)|, |WithStatus(us, Completed)|, |ts|);
  }

  function Reward(t: Task): int { t.reward }

  /** `thisMonthRewards`: the rewards of the completed tasks, added up. */
  function ThisMonthRewards(ts: seq<Task>): (total: int)
    ensures (forall i :: 0 <= i < |ts| ==> ts[i].status != Completed) ==> total == 0
    ensures (forall i :: 0 <= i < |ts| ==> ts[i].reward >= 0) ==>
      0 <= total <= SumOf(ts, Reward)
  {
    var done := WithStatus(ts, Completed);
    assert (forall i :: 0 <= i < |ts| ==> ts[i].status != Completed) ==> done == [] by {
      WithStatusMembers(ts, Completed);
      if done != [] {
        assert done[0] in done;
      }
    }
    assert (forall i :: 0 <= i < |ts| ==> ts[i].reward >= 0) ==>
      0 <= SumOf(done, Reward) <= SumOf(ts, Reward) by {
      if forall i :: 0 <= i < |ts| ==> ts[i].reward >= 0 {
        WithStatusSumBounded(ts, Completed, Reward);
      }
    }
    SumOf(done, Reward)
  }

  /** Only completed tasks contribute: adding a task that is not completed
      leaves the sum alone, adding a completed one adds its reward. */
  lemma ThisMonthRewardsCons(t: Task, ts: seq<Task>)
    ensures ThisMonthRewards([t] + ts)
      == (if t.status == Completed then t.reward else 0) + ThisMonthRewards(ts)
  {
    WithStatusCons(t, ts, Completed);
  }

  /** `name.split(' ').map(n => n[0]).join('')`. */
  function Initials(name: string): (r: string)
    ensures r == WordStarts(name, true)
    ensures |r| <= |name|
  {
    var parts := SplitOn(name, ' ');
    WordStartsSplit(name, true);
    assert FirstChars(parts) == FirstChar(parts[0]) + FirstChars(parts[1..]);
    FirstChars(parts)
  }

  /** The first characters of the parts, concatenated: one character per
      non-empty part, none for an empty one. */
  function FirstChars(parts: seq<string>): (r: string)
    ensures |r| <= |parts|
    ensures forall c :: c in r ==> exists i :: 0 <= i < |parts| && parts[i] != [] && parts[i][0] == c
  {
    if parts == [] then ""
    else
      var rest := FirstChars(parts[1..]);
      assert forall c :: c in rest ==> exists i :: 0 <= i < |parts| && parts[i] != [] && parts[i][0] == c by {
        forall c | c in rest
          ensures exists i :: 0 <= i < |parts| && parts[i] != [] && parts[i][0] == c
        {
          var j :| 0 <= j < |parts[1..]| && parts[1..][j] != [] && parts[1..][j][0] == c;
          assert parts[j + 1] == parts[1..][j];
        }
      }
      FirstChar(parts[0]) + rest
  }

  /** An independent reading of the initials: the characters of `s` that are
      not spaces and start the string or follow a space. `atStart` says
      whether the previous character was a space (or there was none). */
  function WordStarts(s: string, atStart: bool): (r: string)
    ensures |r| <= |s|
  {
    if s == [] then ""
    else (if atStart && s[0] != ' ' then [s[0]] else "") + WordStarts(s[1..], s[0] == ' ')
  }

  lemma {:induction false} WordStartsSplit(s: string, atStart: bool)
    ensures WordStarts(s, atStart)
      == (if atStart then FirstChar(SplitOn(s, ' ')[0]) else "") + FirstChars(SplitOn(s, ' ')[1..])
  {
    if s != [] {
      var rest := SplitOn(s[1..], ' ');
      WordStartsSplit(s[1..], s[0] == ' ');
      if s[0] == ' ' {
        assert SplitOn(s, ' ') == [""] + rest;
        assert ([""] + rest)[1..] == rest;
        assert FirstChars(rest) == FirstChar(rest[0]) + FirstChars(rest[1..]);
      } else {
        var parts := [[s[0]] + rest[0]] + rest[1..];
        assert SplitOn(s, ' ') == parts;
        assert parts[1..] == rest[1..];
        assert FirstChar(parts[0]) == [s[0]];
      }
    }
  }

  /** The avatar initials are exactly the word-starting characters of the
      name: "Alex Chen" gives "AC". */
  lemma InitialsAreWordStarts(name: string)
    ensures Initials(name) == WordStarts(name, true)
  {
  }

  /** Word starts of a concatenation: the second part continues after the
      last character of the first. */
  lemma {:induction false} WordStartsAppend(a: string, b: string, atStart: bool)
    requires a != []
    ensures WordStarts(a + b, atStart) == WordStarts(a, atStart) + WordStarts(b, a[|a| - 1] == ' ')
  {
    assert (a + b)[0] == a[0] && (a + b)[1..] == a[1..] + b;
    if |a| > 1 {
      WordStartsAppend(a[1..], b, a[0] == ' ');
    } else {
      assert a[1..] == [];
      assert a[1..] + b == b;
    }
  }

  /** A word without spaces contributes its first character at most. */
  lemma {:induction false} WordStartsOfWord(w: string, atStart: bool)
    requires w != [] && ' ' !in w
    ensures WordStarts(w, atStart) == if atStart then [w[0]] else ""
  {
    if |w| > 1 {
      WordStartsOfWord(w[1..], false);
    }
  }

  /** Two space-free words separated by one space give their two first letters. */
  lemma InitialsOfTwoWords(first: string, last: string)
    requires first != [] && ' ' !in first
    requires last != [] && ' ' !in last
    ensures Initials(first + " " + last) == [first[0], last[0]]
  {
    var name, rest := first + " " + last, " " + last;
    InitialsAreWordStarts(name);
    assert name == first + rest;
    assert first[|first| - 1] in first;
    WordStartsAppend(first, rest, true);
    WordStartsOfWord(first, true);
    WordStartsAfterSpace(last, false);
    WordStartsOfWord(last, true);
  }

  /** A space makes the next character start a word. */
  lemma WordStartsAfterSpace(w: string, atStart: bool)
    ensures WordStarts(" " + w, atStart) == WordStarts(w, true)
  {
    assert (" " + w)[0] == ' ' && (" " + w)[1..] == w;
  }

  lemma InitialsAlexChen()
    ensures Initials("Alex Chen") == "AC"
  {
    InitialsOfTwoWords("Alex", "Chen");
    assert "Alex" + " " + "Chen" == "Alex Chen";
  }
}

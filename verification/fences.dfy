/**
 The clean-up applied to the model's reply before it is handed to the JSON
 decoder (app1.py, quiz and flashcard branches): every "```json" is removed,
 then every remaining "```", then surrounding whitespace is stripped.
 */
module Fences {
  import opened PyText

  const OpenFence: string := "```json"
  const Fence: string := "```"

  /** `res.replace("```json", "").replace("```", "").strip()` */
  function CleanFences(s: string): (r: string)
    ensures !Contains(r, Fence)
    ensures Unpadded(r)
    ensures !Contains(s, Fence) && Unpadded(s) ==> r == s
  {
    var unopened := ReplaceAll(s, OpenFence, "");
    var unfenced := ReplaceAll(unopened, Fence, "");
    FenceRemovalLeavesNoFence(unopened);
    StripKeepsNoFence(unfenced);
    if !Contains(s, Fence) && Unpadded(s) then
      OpenFenceContainsFence(s);
      StripUnpadded(s);
      Strip(unfenced)
    else
      Strip(unfenced)
  }

  /** Length of the run of backticks that `s` starts with. */
  function LeadingTicks(s: string): nat
    decreases |s|
  {
    if |s| > 0 && s[0] == '`' then 1 + LeadingTicks(s[1..]) else 0
  }

  /**
   Removing every "```" leaves a leading run of at most two backticks, and
   leaves a run that was already that short as it was; hence no run of three
   survives, even where a removal joins two runs.
   */
  lemma {:induction false} FenceRemovalLeavesNoFence(s: string)
    ensures TicksKept(s)
    ensures !Contains(ReplaceAll(s, Fence, ""), Fence)
    decreases |s|
  {
    if |s| == 0 {
    } else if Fence <= s {
      FenceRemovalLeavesNoFence(s[3..]);
      FenceRemovedAtFront(s);
    } else {
      FenceRemovalLeavesNoFence(s[1..]);
      CharKeptAtFront(s);
    }
  }

  /** The leading backtick run of `s` after fence removal is short, and unchanged if it was short. */
  predicate TicksKept(s: string) {
    var after := LeadingTicks(ReplaceAll(s, Fence, ""));
    after <= 2 && (LeadingTicks(s) <= 2 ==> after == LeadingTicks(s))
  }

  /** Inductive step where `s` starts with a fence, which is dropped. */
  lemma FenceRemovedAtFront(s: string)
    requires Fence <= s
    requires TicksKept(s[3..])
    requires !Contains(ReplaceAll(s[3..], Fence, ""), Fence)
    ensures TicksKept(s)
    ensures !Contains(ReplaceAll(s, Fence, ""), Fence)
  {
    assert ReplaceAll(s, Fence, "") == ReplaceAll(s[3..], Fence, "");
    TicksPastFence(s);
  }

  /** Inductive step where the first character of `s` is copied. */
  lemma CharKeptAtFront(s: string)
    requires |s| > 0 && !(Fence <= s)
    requires TicksKept(s[1..])
    requires !Contains(ReplaceAll(s[1..], Fence, ""), Fence)
    ensures TicksKept(s)
    ensures !Contains(ReplaceAll(s, Fence, ""), Fence)
  {
    var rest := ReplaceAll(s[1..], Fence, "");
    assert ReplaceAll(s, Fence, "") == [s[0]] + rest;
    if s[0] == '`' {
      ShortTickRun(s);
      assert LeadingTicks(s) == 1 + LeadingTicks(s[1..]);
    } else {
      assert LeadingTicks(s) == 0;
    }
    ConsNoFence(s[0], rest);
  }

  /** A text that starts with a fence starts with a run of at least three backticks. */
  lemma TicksPastFence(s: string)
    requires Fence <= s
    ensures LeadingTicks(s) >= 3
  {
    assert s[0] == s[1] == s[2] == '`';
    assert s[1..][1..][1..] == s[3..];
    assert LeadingTicks(s[1..][1..]) == 1 + LeadingTicks(s[3..]);
    assert LeadingTicks(s[1..]) == 1 + LeadingTicks(s[1..][1..]);
  }

  /** A run that starts `s` but is not a fence is one or two backticks long. */
  lemma ShortTickRun(s: string)
    requires |s| > 0 && s[0] == '`' && !(Fence <= s)
    ensures LeadingTicks(s[1..]) <= 1
  {
  }

  /** Putting one character in front of a fence-free text whose tick run is short. */
  lemma ConsNoFence(c: char, rest: string)
    requires !Contains(rest, Fence)
    requires c == '`' ==> LeadingTicks(rest) <= 1
    ensures LeadingTicks([c] + rest) == if c == '`' then 1 + LeadingTicks(rest) else 0
    ensures !Contains([c] + rest, Fence)
  {
  }

  /** A text free of "```" is free of "```json" as well. */
  lemma {:induction false} OpenFenceContainsFence(s: string)
    requires !Contains(s, Fence)
    ensures !Contains(s, OpenFence)
    decreases |s|
  {
    if |s| > 0 {
      assert !(OpenFence <= s);
      OpenFenceContainsFence(s[1..]);
    }
  }

  /** Stripping never creates a fence. */
  lemma StripKeepsNoFence(t: string)
    requires !Contains(t, Fence)
    ensures !Contains(Strip(t), Fence)
  {
    var i := LeadingSpace(t);
    var r := Strip(t);
    if Contains(r, Fence) {
      assert r == t[i..i + |r|];
      ContainsInSlice(t, i, i + |r|, Fence);
    }
  }

  /** `strip` leaves an unpadded text alone. */
  lemma StripUnpadded(s: string)
    requires Unpadded(s)
    ensures Strip(s) == s
  {
  }

  /** A text without backticks holds no fence. */
  lemma {:induction false} TickFreeHasNoFence(z: string)
    requires '`' !in z
    ensures !Contains(z, Fence)
    decreases |z|
  {
    if |z| > 0 {
      assert z[0] in z;
      TickFreeHasNoFence(z[1..]);
    }
  }

  /** A text holds no occurrence of a pattern one of whose characters it lacks. */
  lemma {:induction false} MissingCharNoMatch(t: string, pat: string, i: nat)
    requires i < |pat| && pat[i] !in t
    ensures !Contains(t, pat)
    decreases |t|
  {
    if |t| > 0 {
      if |pat| <= |t| {
        assert t[i] in t;
      }
      MissingCharNoMatch(t[1..], pat, i);
    }
  }

  /** Putting backtick-free text in front of a fence-free text creates no fence. */
  lemma {:induction false} TickFreeBefore(a: string, y: string)
    requires '`' !in a && !Contains(y, Fence)
    ensures !Contains(a + y, Fence)
    decreases |a|
  {
    if |a| > 0 {
      assert (a + y)[0] == a[0] && a[0] in a;
      assert (a + y)[1..] == a[1..] + y;
      TickFreeBefore(a[1..], y);
    } else {
      assert a + y == y;
    }
  }

  /** Putting backtick-free text behind a fence-free text creates no fence. */
  lemma {:induction false} TickFreeAfter(x: string, b: string)
    requires !Contains(x, Fence) && '`' !in b
    ensures !Contains(x + b, Fence)
    decreases |x|
  {
    if |x| == 0 {
      assert x + b == b;
      TickFreeHasNoFence(b);
    } else {
      var s := x + b;
      if |s| >= 3 {
        if |x| >= 3 {
          assert s[..3] == x[..3];
        } else {
          assert s[|x|] == b[0] && b[0] in b;
        }
      }
      assert !(Fence <= s);
      assert s[1..] == x[1..] + b;
      TickFreeAfter(x[1..], b);
    }
  }

  /**
   A fence-free text followed by a text without the letter 'n' (so without
   the end of "```json") holds no "```json".
   */
  lemma {:induction false} NoOpenFenceBefore(m: string, t: string)
    requires !Contains(m, Fence) && 'n' !in t
    ensures !Contains(m + t, OpenFence)
    decreases |m|
  {
    if |m| == 0 {
      assert m + t == t;
      MissingCharNoMatch(t, OpenFence, 6);
    } else {
      var s := m + t;
      if |s| >= 7 {
        if |m| >= 3 {
          assert s[..3] == m[..3] && OpenFence[..3] == Fence;
        } else {
          assert s[6] == t[6 - |m|] && t[6 - |m|] in t;
        }
      }
      assert !(OpenFence <= s);
      assert s[1..] == m[1..] + t;
      NoOpenFenceBefore(m[1..], t);
    }
  }

  /**
   Removing fences from a fence-free text, a closing fence and backtick-free
   text drops just the closing fence, even when the text ends in backticks
   that join the fence's run.
   */
  lemma {:induction false} ClosingFenceRemoved(x: string, d: string)
    requires !Contains(x, Fence) && '`' !in d
    ensures ReplaceAll(x + Fence + d, Fence, "") == x + d
    decreases |x|
  {
    var s := x + Fence + d;
    if |x| <= 2 && forall k :: 0 <= k < |x| ==> x[k] == '`' {
      assert s[..3] == Fence;
      assert s[3..] == x + d;
      TickFreeAfter(x, d);
    } else {
      assert exists k :: 0 <= k < 3 && k < |x| && x[k] != '`' by {
        if |x| >= 3 {
          assert x[..3] != Fence;
        }
      }
      var k :| 0 <= k < 3 && k < |x| && x[k] != '`';
      assert s[k] == x[k];
      assert !(Fence <= s);
      assert s[1..] == x[1..] + Fence + d;
      ClosingFenceRemoved(x[1..], d);
      assert x == [x[0]] + x[1..];
    }
  }

  /** Text made only of whitespace holds no backtick and no letter 'n'. */
  lemma SpaceHasNoTicks(z: string)
    requires AllSpace(z)
    ensures '`' !in z && 'n' !in z
  {
  }

  /** A match at the front is dropped and a match-free rest is kept. */
  lemma LeadingMatchRemoved(pat: string, y: string)
    requires |pat| > 0 && !Contains(y, pat)
    ensures ReplaceAll(pat + y, pat, "") == y
  {
    assert pat <= pat + y && (pat + y)[|pat|..] == y;
  }

  /** Regrouping a text around a match in its middle. */
  lemma RegroupMatch(c: string, pat: string, t: string)
    ensures c + pat + t == c + (pat + t)
  {
  }

  /** A pass over plain text, one match and a match-free rest drops just that match. */
  lemma SingleMatchRemoved(c: string, pat: string, t: string)
    requires |pat| > 0 && pat[0] !in c && !Contains(t, pat)
    ensures ReplaceAll(c + pat + t, pat, "") == c + t
  {
    RegroupMatch(c, pat, t);
    LeadingMatchRemoved(pat, t);
    ReplaceSkipsPlain(c, pat + t, pat, "");
  }

  /** Regrouping a five-part text around its second part. */
  lemma RegroupTail(c: string, o: string, m: string, f: string, d: string)
    ensures c + o + m + f + d == c + o + (m + f + d)
  {
  }

  /** The "```json" pass drops just the opening fence of a fenced reply. */
  lemma OpeningFenceRemoved(c: string, m: string, d: string)
    requires '`' !in c && 'n' !in d
    requires !Contains(m, Fence)
    ensures ReplaceAll(c + OpenFence + m + Fence + d, OpenFence, "") == c + (m + Fence + d)
  {
    var t := m + Fence + d;
    assert !Contains(t, OpenFence) by {
      assert 'n' !in Fence + d;
      assert t == m + (Fence + d);
      NoOpenFenceBefore(m, Fence + d);
    }
    RegroupTail(c, OpenFence, m, Fence, d);
    SingleMatchRemoved(c, OpenFence, t);
  }

  /** The "```" pass then drops just the closing fence. */
  lemma ClosingFencePass(c: string, m: string, d: string)
    requires '`' !in c && '`' !in d
    requires !Contains(m, Fence)
    ensures ReplaceAll(c + (m + Fence + d), Fence, "") == c + (m + d)
  {
    ReplaceSkipsPlain(c, m + Fence + d, Fence, "");
    ClosingFenceRemoved(m, d);
  }

  /** Both passes of `replace` on a fenced reply leave everything but the two fences. */
  lemma FencedReplyUnwrapped(c: string, m: string, d: string)
    requires '`' !in c && '`' !in d && 'n' !in d
    requires !Contains(m, Fence)
    ensures ReplaceAll(ReplaceAll(c + OpenFence + m + Fence + d, OpenFence, ""), Fence, "") == c + (m + d)
  {
    OpeningFenceRemoved(c, m, d);
    ClosingFencePass(c, m, d);
  }

  /** The clean-up is the strip of what the two `replace` passes leave. */
  lemma CleansTo(s: string, u: string)
    requires ReplaceAll(ReplaceAll(s, OpenFence, ""), Fence, "") == u
    ensures CleanFences(s) == Strip(u)
  {
  }

  /** Joining two whitespace-only texts gives a whitespace-only text. */
  lemma SpaceJoin(x: string, y: string)
    requires AllSpace(x) && AllSpace(y)
    ensures AllSpace(x + y)
  {
    forall k | 0 <= k < |x + y|
      ensures IsSpace((x + y)[k])
    {
      if k < |x| {
        assert (x + y)[k] == x[k];
      } else {
        assert (x + y)[k] == y[k - |x|];
      }
    }
  }

  /** Stripping removes whitespace on both sides of the fence's former place. */
  lemma StripAroundFence(c: string, a: string, payload: string, b: string, d: string)
    requires AllSpace(c) && AllSpace(a) && AllSpace(b) && AllSpace(d)
    requires Unpadded(payload)
    ensures Strip(c + (a + payload + b + d)) == payload
  {
    assert c + (a + payload + b + d) == (c + a) + payload + (b + d);
    SpaceJoin(c, a);
    SpaceJoin(b, d);
    StripPadding(c + a, payload, b + d);
  }

  /** Writing the fenced reply around the padded payload as one piece. */
  lemma FencedShape(c: string, a: string, payload: string, b: string, d: string)
    ensures c + OpenFence + a + payload + b + Fence + d == c + OpenFence + (a + payload + b) + Fence + d
  {
  }

  /** The payload with its whitespace padding holds no fence. */
  lemma PaddedPayloadNoFence(a: string, payload: string, b: string)
    requires AllSpace(a) && AllSpace(b) && !Contains(payload, Fence)
    ensures !Contains(a + payload + b, Fence)
  {
    SpaceHasNoTicks(a);
    SpaceHasNoTicks(b);
    TickFreeAfter(payload, b);
    TickFreeBefore(a, payload + b);
    assert a + payload + b == a + (payload + b);
  }

  /** Without a fence, only the whitespace padding is removed. */
  lemma UnfencedRoundTrip(a: string, payload: string, b: string)
    requires AllSpace(a) && AllSpace(b)
    requires Unpadded(payload) && !Contains(payload, Fence)
    ensures CleanFences(a + payload + b) == payload
  {
    var m := a + payload + b;
    PaddedPayloadNoFence(a, payload, b);
    OpenFenceContainsFence(m);
    StripPadding(a, payload, b);
  }

  /** With a fence, the fences and all whitespace inside and outside them are removed. */
  lemma FencedRoundTrip(c: string, a: string, payload: string, b: string, d: string)
    requires AllSpace(c) && AllSpace(a) && AllSpace(b) && AllSpace(d)
    requires Unpadded(payload) && !Contains(payload, Fence)
    ensures CleanFences(c + OpenFence + a + payload + b + Fence + d) == payload
  {
    SpaceHasNoTicks(c);
    SpaceHasNoTicks(d);
    var m := a + payload + b;
    PaddedPayloadNoFence(a, payload, b);
    FencedShape(c, a, payload, b, d);
    FencedReplyUnwrapped(c, m, d);
    CleansTo(c + OpenFence + m + Fence + d, c + (m + d));
    StripAroundFence(c, a, payload, b, d);
  }

  /**
   A JSON payload free of "```" (inline single backticks allowed) comes out
   of the clean-up exactly as it was sent, whether or not the model wrapped it
   in a "```json" fence, with whitespace inside or outside the fence.
   */
  lemma FenceRoundTrip(c: string, a: string, payload: string, b: string, d: string)
    requires AllSpace(c) && AllSpace(a) && AllSpace(b) && AllSpace(d)
    requires Unpadded(payload) && !Contains(payload, Fence)
    ensures CleanFences(c + OpenFence + a + payload + b + Fence + d) == payload
    ensures CleanFences(a + payload + b) == payload
  {
    FencedRoundTrip(c, a, payload, b, d);
    UnfencedRoundTrip(a, payload, b);
  }

  /** A reply "```json`x`\n```\n": inline backticks survive, the newlines go. */
  lemma InlineCodeExample()
    ensures CleanFences(OpenFence + "`x`\n" + Fence + "\n") == "`x`"
  {
    var p := "`x`";
    assert !Contains(p[2..], Fence);
    assert !Contains(p[1..], Fence);
    assert !(Fence <= p) by {
      assert p[1] != Fence[1];
    }
    assert !Contains(p, Fence);
    assert AllSpace("\n");
    FencedRoundTrip([], [], p, "\n", "\n");
    assert [] + OpenFence + [] + p + "\n" + Fence + "\n" == OpenFence + "`x`\n" + Fence + "\n";
  }
}

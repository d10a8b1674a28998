/** Cleaning of an extraction reply before it is parsed
    (backend/services/langgraph_engine.py, line 101): every "```json" is
    removed, then every "```", then surrounding whitespace is stripped. */
module ReplyCleaning {

  const JsonFence: string := "```json"
  const Fence: string := "```"

  /** Python's `s.replace(pat, "")`: occurrences are found left to right and
      do not overlap. */
  function RemoveAll(s: string, pat: string): (r: string)
    requires pat != []
    ensures |r| <= |s|
    decreases |s|
  {
    if |s| < |pat| then s
    else if s[..|pat|] == pat then RemoveAll(s[|pat|..], pat)
    else [s[0]] + RemoveAll(s[1..], pat)
  }

  /** Python's `str.isspace` for one character (the characters `str.strip()` removes) */
  predicate IsSpace(c: char) {
    var n := c as int;
    n == 0x20 || 0x09 <= n <= 0x0D || 0x1C <= n <= 0x1F || n == 0x85 || n == 0xA0
    || n == 0x1680 || 0x2000 <= n <= 0x200A || n == 0x2028 || n == 0x2029
    || n == 0x202F || n == 0x205F || n == 0x3000
  }

  /** The first index at or after `i` that does not hold whitespace (or |s|) */
  function SkipLeading(s: string, i: nat): (lo: nat)
    requires i <= |s|
    ensures i <= lo <= |s|
    decreases |s| - i
  {
    if i < |s| && IsSpace(s[i]) then SkipLeading(s, i + 1) else i
  }

  /** Everything skipped is whitespace, and the scan stops at a non-space */
  lemma {:induction false} SkipLeadingStops(s: string, i: nat)
    requires i <= |s|
    ensures forall k :: i <= k < SkipLeading(s, i) ==> IsSpace(s[k])
    ensures SkipLeading(s, i) < |s| ==> !IsSpace(s[SkipLeading(s, i)])
    decreases |s| - i
  {
    if i < |s| && IsSpace(s[i]) {
      SkipLeadingStops(s, i + 1);
    }
  }

  /** The end of `s[lo..j]` once trailing whitespace is dropped */
  function SkipTrailing(s: string, lo: nat, j: nat): (hi: nat)
    requires lo <= j <= |s|
    ensures lo <= hi <= j
    decreases j
  {
    if j > lo && IsSpace(s[j - 1]) then SkipTrailing(s, lo, j - 1) else j
  }

  /** Everything dropped is whitespace, and the kept part ends in a non-space */
  lemma {:induction false} SkipTrailingStops(s: string, lo: nat, j: nat)
    requires lo <= j <= |s|
    ensures forall k :: SkipTrailing(s, lo, j) <= k < j ==> IsSpace(s[k])
    ensures SkipTrailing(s, lo, j) > lo ==> !IsSpace(s[SkipTrailing(s, lo, j) - 1])
    decreases j
  {
    if j > lo && IsSpace(s[j - 1]) {
      SkipTrailingStops(s, lo, j - 1);
    }
  }

  /** Python's `s.strip()` */
  function Strip(s: string): string {
    var lo := SkipLeading(s, 0);
    s[lo..SkipTrailing(s, lo, |s|)]
  }

  /** `strip()` keeps a slice of its argument: everything removed is
      whitespace, and the slice neither starts nor ends with whitespace */
  lemma StripIsTrimmedSlice(s: string)
    ensures exists lo, hi ::
              && 0 <= lo <= hi <= |s| && Strip(s) == s[lo..hi]
              && (forall i :: 0 <= i < lo ==> IsSpace(s[i]))
              && (forall i :: hi <= i < |s| ==> IsSpace(s[i]))
    ensures Strip(s) != [] ==> !IsSpace(Strip(s)[0]) && !IsSpace(Strip(s)[|Strip(s)| - 1])
  {
    var lo := SkipLeading(s, 0);
    var hi := SkipTrailing(s, lo, |s|);
    SkipLeadingStops(s, 0);
    SkipTrailingStops(s, lo, |s|);
    assert Strip(s) == s[lo..hi];
  }

  /** The reply text handed to the JSON parser */
  function Clean(reply: string): string {
    Strip(RemoveAll(RemoveAll(reply, JsonFence), Fence))
  }

  predicate FenceAt(s: string, i: int)
    requires 0 <= i && i + 3 <= |s|
  {
    s[i] == '`' && s[i + 1] == '`' && s[i + 2] == '`'
  }

  /** No three consecutive backticks anywhere in `s` */
  predicate NoFence(s: string) {
    forall i :: 0 <= i && i + 3 <= |s| ==> !FenceAt(s, i)
  }

  lemma FencePrefix(s: string)
    requires |s| >= 3
    ensures s[..3] == Fence <==> FenceAt(s, 0)
  {
    if FenceAt(s, 0) {
      assert s[..3] == Fence;
    }
  }

  /** A string that does not start with "```" keeps its first character */
  lemma {:induction false} FirstCharKept(t: string)
    requires t != []
    requires |t| >= 3 ==> !FenceAt(t, 0)
    ensures RemoveAll(t, Fence) != [] && RemoveAll(t, Fence)[0] == t[0]
  {
    if |t| >= 3 {
      FencePrefix(t);
    }
  }

  /** After removing every "```", no "```" is left: removing a run of one
      repeated character never joins two partial runs into a new one. */
  lemma {:induction false} RemoveFenceLeavesNone(s: string)
    ensures NoFence(RemoveAll(s, Fence))
    decreases |s|
  {
    var r := RemoveAll(s, Fence);
    if |s| < 3 {
    } else if s[..3] == Fence {
      RemoveFenceLeavesNone(s[3..]);
    } else {
      FencePrefix(s);
      var t := s[1..];
      var rt := RemoveAll(t, Fence);
      RemoveFenceLeavesNone(t);
      assert r == [s[0]] + rt;
      forall i | 0 <= i && i + 3 <= |r|
        ensures !FenceAt(r, i)
      {
        if i == 0 {
          if s[0] == '`' {
            if s[1] != '`' {
              FirstCharKept(t);
            } else {
              assert s[2] != '`';
              if |t| >= 3 {
                FencePrefix(t);
                var u := t[1..];
                FirstCharKept(u);
                assert rt == [t[0]] + RemoveAll(u, Fence);
              }
              assert r[2] == s[2];
            }
          }
        } else {
          assert FenceAt(r, i) == FenceAt(rt, i - 1);
        }
      }
    }
  }

  /** A slice of a string without "```" has none either */
  lemma SliceKeepsNoFence(s: string, lo: int, hi: int)
    requires 0 <= lo <= hi <= |s| && NoFence(s)
    ensures NoFence(s[lo..hi])
  {
    var t := s[lo..hi];
    forall i | 0 <= i && i + 3 <= |t|
      ensures !FenceAt(t, i)
    {
      assert !FenceAt(s, lo + i);
    }
  }

  /** The cleaned reply never contains "```" (nor, therefore, "```json") */
  lemma CleanLeavesNoFence(reply: string)
    ensures NoFence(Clean(reply))
  {
    var removed := RemoveAll(RemoveAll(reply, JsonFence), Fence);
    RemoveFenceLeavesNone(RemoveAll(reply, JsonFence));
    StripIsTrimmedSlice(removed);
    var lo, hi :| 0 <= lo <= hi <= |removed| && Clean(reply) == removed[lo..hi];
    SliceKeepsNoFence(removed, lo, hi);
  }

  predicate NoBacktick(s: string) {
    forall i :: 0 <= i < |s| ==> s[i] != '`'
  }

  /** Removal passes over a backtick-free prefix unchanged */
  lemma {:induction false} RemoveAllSkipsPrefix(x: string, y: string, pat: string)
    requires pat != [] && pat[0] == '`' && NoBacktick(x)
    ensures RemoveAll(x + y, pat) == x + RemoveAll(y, pat)
    decreases |x|
  {
    var s := x + y;
    if x == [] {
      assert s == y;
    } else if |s| < |pat| {
      assert RemoveAll(s, pat) == s;
      assert RemoveAll(y, pat) == y;
    } else {
      assert s[0] == x[0] != pat[0];
      assert s[..|pat|] != pat by {
        assert s[..|pat|][0] != pat[0];
      }
      assert RemoveAll(s, pat) == [x[0]] + RemoveAll(s[1..], pat);
      assert s[1..] == x[1..] + y;
      RemoveAllSkipsPrefix(x[1..], y, pat);
      assert x == [x[0]] + x[1..];
    }
  }

  /** A reply without backticks is only stripped */
  lemma PlainReplyIsOnlyStripped(reply: string)
    requires NoBacktick(reply)
    ensures Clean(reply) == Strip(reply)
  {
    RemoveAllSkipsPrefix(reply, [], JsonFence);
    RemoveAllSkipsPrefix(reply, [], Fence);
    assert reply + [] == reply;
  }

  /** A body wrapped in a "```json ... ```" code block comes back as the
      stripped body */
  lemma FencedReplyYieldsBody(body: string)
    requires NoBacktick(body)
    ensures Clean(JsonFence + body + Fence) == Strip(body)
  {
    var s := JsonFence + body + Fence;
    assert s[..|JsonFence|] == JsonFence;
    assert s[|JsonFence|..] == body + Fence;
    RemoveAllSkipsPrefix(body, Fence, JsonFence);
    assert RemoveAll(Fence, JsonFence) == Fence;
    RemoveAllSkipsPrefix(body, Fence, Fence);
    assert Fence[..3] == Fence && Fence[3..] == [];
    assert RemoveAll(Fence, Fence) == [];
    assert body + [] == body;
  }

  /** The replaces are not limited to the enclosing fences: a "```" inside
      the body (in a free-text value, say) is deleted as well */
  lemma InnerFenceIsDeleted()
    ensures Clean(JsonFence + "a```b" + Fence) == "ab"
    ensures Strip("a```b") == "a```b"
  {
    var s := JsonFence + "a```b" + Fence;
    var t := "a```b```";
    assert s[..7] == JsonFence && s[7..] == t;
    assert t == "a" + "```b```";
    RemoveAllSkipsPrefix("a", "```b```", JsonFence);
    assert "```b```"[..7] != JsonFence by {
      assert "```b```"[..7][3] == 'b' != JsonFence[3];
    }
    assert "```b```"[1..] == "``b```";
    assert RemoveAll("```b```", JsonFence) == "```b```";
    assert RemoveAll(s, JsonFence) == t;
    RemoveAllSkipsPrefix("a", "```b```", Fence);
    assert "```b```"[..3] == Fence && "```b```"[3..] == "b```";
    assert "b```" == "b" + "```";
    RemoveAllSkipsPrefix("b", "```", Fence);
    assert "```"[..3] == Fence && "```"[3..] == [];
    assert RemoveAll(t, Fence) == "ab";
  }
}

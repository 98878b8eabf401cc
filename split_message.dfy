/**
 * ai-health's `splitMessage` (ai-health/shared/utils/splitMessage.js): cut a long reply into
 * chunks of at most `max` characters, preferring to cut before a line break in the last 40%
 * of the window, then before a space, and otherwise at exactly `max`.
 */
module SplitMessage {
  import opened Opt

  /** `s.lastIndexOf(c, from)`: the last position at or before `from` holding `c`, or -1. */
  function LastIndexOf(s: string, c: char, from: nat): (r: int)
    requires from < |s|
    ensures -1 <= r <= from
    ensures r >= 0 ==> s[r] == c
    ensures forall i :: r < i <= from ==> s[i] != c
    decreases from
  {
    if s[from] == c then from
    else if from == 0 then -1
    else LastIndexOf(s, c, from - 1)
  }

  /** Where the loop cuts `rest`. The source's test `cut < max * 0.6` is written `5 * cut < 3 * max`. */
  function CutPoint(rest: string, max: nat): (cut: nat)
    requires 1 <= max < |rest|
    ensures 0 < cut <= max
    ensures cut < max ==> rest[cut] == '\n' || rest[cut] == ' '
    ensures var nl := LastIndexOf(rest, '\n', max);
      5 * nl >= 3 * max ==> cut == nl && forall i :: cut < i <= max ==> rest[i] != '\n'
  {
    var nl := LastIndexOf(rest, '\n', max);
    var cut := if 5 * nl < 3 * max then LastIndexOf(rest, ' ', max) else nl;
    if cut <= 0 then max else cut
  }

  /** The chunks the loop produces from `rest`, one cut at a time. */
  function Chunks(rest: string, max: nat): seq<string>
    requires max >= 1
    decreases |rest|
  {
    if |rest| <= max then (if rest == [] then [] else [rest])
    else
      var cut := CutPoint(rest, max);
      [rest[..cut]] + Chunks(rest[cut..], max)
  }

  function Concat(cs: seq<string>): string
    decreases |cs|
  {
    if cs == [] then [] else cs[0] + Concat(cs[1..])
  }

  /** The chunks put back together give the text. */
  lemma {:induction false} ChunksConcat(rest: string, max: nat)
    requires max >= 1
    ensures Concat(Chunks(rest, max)) == rest
    decreases |rest|
  {
    if |rest| > max {
      var cut := CutPoint(rest, max);
      ChunksConcat(rest[cut..], max);
      assert rest[..cut] + rest[cut..] == rest;
    }
  }

  /** No chunk is empty or longer than `max`, and a text that fits is a single chunk. */
  lemma {:induction false} ChunksBounded(rest: string, max: nat)
    requires max >= 1
    ensures forall c :: c in Chunks(rest, max) ==> 0 < |c| <= max
    ensures 0 < |rest| <= max ==> Chunks(rest, max) == [rest]
    decreases |rest|
  {
    if |rest| > max {
      var cut := CutPoint(rest, max);
      ChunksBounded(rest[cut..], max);
    }
  }

  /** One turn of the loop: cutting the first chunk off `rest` leaves the chunks still to come. */
  lemma ChunksStep(done: seq<string>, rest: string, max: nat)
    requires 1 <= max < |rest|
    ensures var cut := CutPoint(rest, max);
      done + Chunks(rest, max) == (done + [rest[..cut]]) + Chunks(rest[cut..], max)
  {
  }

  /** `splitMessage`: nothing for a missing or empty text; otherwise the loop that cuts chunks
      off the front while the remainder is longer than `max`, then the remainder. */
  method Split(text: Option<string>, max: nat) returns (chunks: seq<string>)
    requires max >= 1
    ensures text.None? || text.value == [] ==> chunks == []
    ensures text.Some? ==> chunks == Chunks(text.value, max)
    ensures text.Some? ==> Concat(chunks) == text.value
    ensures forall c :: c in chunks ==> 0 < |c| <= max
    ensures text.Some? && 0 < |text.value| <= max ==> chunks == [text.value]
  {
    if text.None? || text.value == [] {
      return [];
    }
    chunks := [];
    var rest := text.value;
    while |rest| > max
      invariant chunks + Chunks(rest, max) == Chunks(text.value, max)
      decreases |rest|
    {
      var nl := LastIndexOf(rest, '\n', max);
      var cut := nl;
      if 5 * cut < 3 * max {
        cut := LastIndexOf(rest, ' ', max);
      }
      if cut <= 0 {
        cut := max;
      }
      assert cut == CutPoint(rest, max);
      ChunksStep(chunks, rest, max);
      chunks := chunks + [rest[..cut]];
      rest := rest[cut..];
    }
    if |rest| > 0 {
      chunks := chunks + [rest];
    }
    assert chunks == Chunks(text.value, max);
    ChunksConcat(text.value, max);
    ChunksBounded(text.value, max);
  }

  /** The first chunk of an over-long text ends just before the last line break in the final
      40% of the window, when there is one. */
  lemma CutsAtLateLineBreak(s: string, max: nat, j: nat)
    requires 1 <= max < |s|
    requires 3 * max <= 5 * j && j <= max && s[j] == '\n'
    ensures var c := Chunks(s, max)[0];
      |c| >= j && (|c| < |s| ==> s[|c|] == '\n') && forall i :: |c| < i <= max ==> s[i] != '\n'
  {
    var nl := LastIndexOf(s, '\n', max);
    assert nl >= j;
  }
}

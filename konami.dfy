/** The Konami-code easter egg (script.js lines 561-574). Every keydown pushes
    `e.key` onto a module-level array and trims it with
    `splice(-|Pattern| - 1, length - |Pattern|)`; the flourish starts when the
    concatenation of the array contains the concatenation of the pattern. */
module Konami {
  import opened Common

  const Pattern: seq<string> :=
    ["ArrowUp", "ArrowUp", "ArrowDown", "ArrowDown", "ArrowLeft", "ArrowRight", "ArrowLeft", "ArrowRight", "b", "a"]

  /** Where `Array.prototype.splice` starts on an array of length len: a
      negative start counts from the end; both are clamped into [0, len]. */
  function SpliceStart(len: nat, start: int): (r: nat)
    ensures r <= len
    ensures start >= 0 ==> r == Min(start, len)
    ensures start < 0 ==> r == Max(len + start, 0)
  {
    if start < 0 then Max(len + start, 0) else Min(start, len)
  }

  /** How many elements `splice` removes: the request clamped into
      [0, len - SpliceStart]. */
  function SpliceCount(len: nat, start: int, deleteCount: int): (r: nat)
    ensures SpliceStart(len, start) + r <= len
    ensures r <= Max(deleteCount, 0)
    ensures r == Max(deleteCount, 0) || SpliceStart(len, start) + r == len
  {
    Min(Max(deleteCount, 0), len - SpliceStart(len, start))
  }

  /** The array `s` becomes after `s.splice(start, deleteCount)`. */
  function Splice<T>(s: seq<T>, start: int, deleteCount: int): (r: seq<T>)
  {
    var a := SpliceStart(|s|, start);
    s[..a] + s[a + SpliceCount(|s|, start, deleteCount)..]
  }

  /** `splice` removes one contiguous block: the elements before the start
      stay in place and the rest move down by the number removed. */
  lemma SpliceRemovesBlock<T>(s: seq<T>, start: int, deleteCount: int)
    ensures |Splice(s, start, deleteCount)| == |s| - SpliceCount(|s|, start, deleteCount)
    ensures forall i :: 0 <= i < SpliceStart(|s|, start) ==> Splice(s, start, deleteCount)[i] == s[i]
    ensures forall i :: SpliceStart(|s|, start) <= i < |s| - SpliceCount(|s|, start, deleteCount) ==>
      Splice(s, start, deleteCount)[i] == s[i + SpliceCount(|s|, start, deleteCount)]
  {
  }

  /** The array after one keydown handler: push, then splice. */
  function AfterKey(keys: seq<string>, key: string): seq<string>
  {
    var pushed := keys + [key];
    Splice(pushed, -|Pattern| - 1, |pushed| - |Pattern|)
  }

  /** The last Min(|h|, n) elements of h. */
  function Recent<T>(h: seq<T>, n: nat): seq<T>
  {
    h[|h| - Min(|h|, n)..]
  }

  /** While the array holds at most |Pattern| keys, push-then-splice keeps
      exactly the last |Pattern| keys: nothing is removed below that length,
      and at |Pattern| + 1 the start clamps to 0 and one key is removed. */
  lemma AfterKeyKeepsRecent(keys: seq<string>, key: string)
    requires |keys| <= |Pattern|
    ensures AfterKey(keys, key) == Recent(keys + [key], |Pattern|)
  {
  }

  /** Below ten keys a keydown is a plain push; at ten the oldest key goes. */
  lemma AfterKeyPushes(keys: seq<string>, key: string)
    ensures |keys| < |Pattern| ==> AfterKey(keys, key) == keys + [key]
    ensures |keys| == |Pattern| ==> AfterKey(keys, key) == keys[1..] + [key]
  {
  }

  /** Keeping the last n of a history and then the last n after one more key
      is the same as keeping the last n of the longer history. */
  lemma RecentStep<T>(h: seq<T>, x: T, n: nat)
    ensures Recent(Recent(h, n) + [x], n) == Recent(h + [x], n)
  {
  }

  /** The keys handled by a sequence of keydowns, starting from the empty array. */
  function Replay(history: seq<string>): seq<string>
  {
    if history == [] then [] else AfterKey(Replay(history[..|history| - 1]), history[|history| - 1])
  }

  /** After any sequence of keydowns the array holds at most ten keys, and
      they are the last Min(n, 10) keys pressed, in order. */
  lemma {:induction false} ReplayKeepsRecent(history: seq<string>)
    ensures Replay(history) == Recent(history, |Pattern|)
    ensures |Replay(history)| == Min(|history|, |Pattern|)
  {
    if history != [] {
      var h, k := history[..|history| - 1], history[|history| - 1];
      ReplayKeepsRecent(h);
      AfterKeyKeepsRecent(Replay(h), k);
      RecentStep(h, k, |Pattern|);
      assert h + [k] == history;
    }
  }

  /** `keys.join('')`: every character of every key, the first key first. */
  function Join(keys: seq<string>): (r: string)
  {
    if keys == [] then "" else keys[0] + Join(keys[1..])
  }

  lemma {:induction false} JoinAppend(a: seq<string>, b: seq<string>)
    ensures Join(a + b) == Join(a) + Join(b)
  {
    if a == [] {
      assert a + b == b;
    } else {
      assert (a + b)[1..] == a[1..] + b;
      JoinAppend(a[1..], b);
    }
  }

  predicate OccursAt(hay: string, needle: string, i: int)
  {
    0 <= i <= |hay| - |needle| && hay[i..i + |needle|] == needle
  }

  /** Past a mismatch at offset 0, the occurrences in hay are those in hay[1..], shifted by one. */
  lemma OccursPastHead(hay: string, needle: string)
    requires |hay| >= |needle| && hay[..|needle|] != needle
    ensures (exists i :: OccursAt(hay, needle, i)) <==> (exists i :: OccursAt(hay[1..], needle, i))
  {
    if i :| OccursAt(hay, needle, i) {
      assert i != 0;
      assert hay[1..][i - 1..i - 1 + |needle|] == hay[i..i + |needle|];
      assert OccursAt(hay[1..], needle, i - 1);
    }
    if i :| OccursAt(hay[1..], needle, i) {
      assert hay[1..][i..i + |needle|] == hay[i + 1..i + 1 + |needle|];
      assert OccursAt(hay, needle, i + 1);
    }
  }

  /** `hay.includes(needle)` */
  function Includes(hay: string, needle: string): (r: bool)
    ensures r <==> exists i :: OccursAt(hay, needle, i)
    decreases |hay|
  {
    if |hay| < |needle| then false
    else if hay[..|needle|] == needle then (assert OccursAt(hay, needle, 0); true)
    else (OccursPastHead(hay, needle); Includes(hay[1..], needle))
  }

  /** Whether the handler starts the flourish for this array. */
  predicate Matches(keys: seq<string>)
  {
    Includes(Join(keys), Join(Pattern))
  }

  /** Typing the code fires the flourish, whatever was typed before. */
  lemma {:induction false} FiresAfterPattern(history: seq<string>)
    requires |history| >= |Pattern| && history[|history| - |Pattern|..] == Pattern
    ensures Matches(Replay(history))
  {
    ReplayKeepsRecent(history);
    assert Replay(history) == Pattern;
    assert OccursAt(Join(Pattern), Join(Pattern), 0);
  }

  /** The test is on the joined strings, not on the keys: nine keys that
      together spell the code fire it too. */
  lemma SpelledAcrossKeys()
    ensures Matches(["ArrowUpArrowUp", "ArrowDown", "ArrowDown", "ArrowLeft", "ArrowRight", "ArrowLeft", "ArrowRight", "b", "a"])
  {
    var keys := ["ArrowUpArrowUp", "ArrowDown", "ArrowDown", "ArrowLeft", "ArrowRight", "ArrowLeft", "ArrowRight", "b", "a"];
    var rest := Pattern[2..];
    assert keys == ["ArrowUpArrowUp"] + rest;
    assert Pattern == ["ArrowUp", "ArrowUp"] + rest;
    JoinAppend(["ArrowUpArrowUp"], rest);
    JoinAppend(["ArrowUp", "ArrowUp"], rest);
    assert Join(["ArrowUp", "ArrowUp"]) == "ArrowUpArrowUp" == Join(["ArrowUpArrowUp"]);
    assert Join(keys)[..|Join(Pattern)|] == Join(Pattern);
    assert OccursAt(Join(keys), Join(Pattern), 0);
  }

  /** One keydown keeps the buffer equal to the last keys of the history. */
  lemma RecentAfterKey(keys: seq<string>, history: seq<string>, key: string)
    requires keys == Recent(history, |Pattern|)
    ensures AfterKey(keys, key) == Recent(history + [key], |Pattern|)
    ensures |AfterKey(keys, key)| <= |Pattern|
  {
    AfterKeyKeepsRecent(keys, key);
    RecentStep(history, key, |Pattern|);
  }

  /** The keydown listener and the page state it touches. */
  class Listener {
    /** `konamiCode` */
    var keys: seq<string>
    /** `document.body.style.animation` is the rainbow animation */
    var rainbow: bool
    /** 3000 ms timeouts set but not yet run */
    var pendingResets: nat
    /** every key pressed so far */
    ghost var history: seq<string>

    ghost predicate Valid()
      reads this
    {
      keys == Recent(history, |Pattern|)
    }

    constructor ()
      ensures Valid() && history == [] && keys == [] && !rainbow && pendingResets == 0
    {
      keys := [];
      rainbow := false;
      pendingResets := 0;
      history := [];
    }

    /** One keydown; `fired` says whether the flourish was (re)started. */
    method KeyDown(key: string) returns (fired: bool)
      requires Valid()
      modifies this
      ensures Valid() && history == old(history) + [key]
      ensures keys == AfterKey(old(keys), key)
      ensures |keys| <= |Pattern|
      ensures fired <==> Matches(keys)
      ensures rainbow == (old(rainbow) || fired)
      ensures pendingResets == old(pendingResets) + (if fired then 1 else 0)
    {
      RecentAfterKey(keys, history, key);
      ghost var next := AfterKey(keys, key);
      keys := keys + [key];
      keys := Splice(keys, -|Pattern| - 1, |keys| - |Pattern|);
      assert keys == next;
      history := history + [key];
      fired := Includes(Join(keys), Join(Pattern));
      if fired {
        rainbow := true;
        pendingResets := pendingResets + 1;
      }
    }

    /** One of the 3000 ms timeouts runs: the animation is cleared, even if a
        later match set another timeout that is still pending. */
    method ResetTimeout()
      requires pendingResets > 0
      modifies this
      ensures !rainbow && pendingResets == old(pendingResets) - 1
      ensures keys == old(keys) && history == old(history)
    {
      rainbow := false;
      pendingResets := pendingResets - 1;
    }
  }
}

/**
 * The conversation logs of VoiceCommandApp.js: the user's command history and
 * the assistant's responses, both newest first and capped at 100 entries
 * (lines 154-160 and 528-540), and the context window of at most five earlier
 * messages that goes out with every new command (lines 666-705).
 */
module Conversation {

  datatype Role = User | Assistant

  /**
   * A log entry. The source stores `command` for a user entry and `response`
   * for an assistant entry; both are `text` here. `id` and `timestamp` are
   * both taken from the clock when the entry is made.
   */
  datatype Entry = Entry(id: int, role: Role, text: string, timestamp: int)

  /** One element of the `messages` array sent to the API. */
  datatype Message = Message(role: Role, content: string)

  const HistoryCap: nat := 100
  const WindowSize: nat := 5

  function Min(a: int, b: int): int { if a <= b then a else b }

  // ---------------------------------------------------------------------------
  // Bounded logs

  /** `[e, ...log.slice(0, 99)]`. */
  function Prepend(e: Entry, log: seq<Entry>): (r: seq<Entry>)
    ensures |r| == Min(HistoryCap, |log| + 1)
    ensures r[0] == e
    ensures r[1..] == log[..|r| - 1]
  {
    [e] + log[..Min(HistoryCap - 1, |log|)]
  }

  function Reversed(s: seq<Entry>): (r: seq<Entry>)
    ensures |r| == |s|
    ensures forall k :: 0 <= k < |s| ==> r[k] == s[|s| - 1 - k]
  {
    if s == [] then [] else Reversed(s[1..]) + [s[0]]
  }

  /** Entries prepended one after the other, `es[0]` first. */
  function PrependAll(es: seq<Entry>, log: seq<Entry>): seq<Entry>
    decreases |es|
  {
    if es == [] then log else PrependAll(es[1..], Prepend(es[0], log))
  }

  /**
   * Prepending several entries leaves the newest first, followed by the older
   * ones and then the old log, cut at 100 entries.
   */
  lemma {:induction false} PrependAllNewestFirst(es: seq<Entry>, log: seq<Entry>)
    requires |log| <= HistoryCap
    ensures PrependAll(es, log) == (Reversed(es) + log)[..Min(HistoryCap, |es| + |log|)]
  {
    if es != [] {
      var log' := Prepend(es[0], log);
      PrependAllNewestFirst(es[1..], log');
      var n := Min(HistoryCap, |es| + |log|);
      assert Min(HistoryCap, |es| - 1 + |log'|) == n;
      var lhs := (Reversed(es[1..]) + log')[..n];
      var rhs := (Reversed(es) + log)[..n];
      assert Reversed(es) == Reversed(es[1..]) + [es[0]];
      forall k | 0 <= k < n ensures lhs[k] == rhs[k] {
        var m := |es| - 1;
        if k > m {
          assert lhs[k] == log'[k - m];
          assert log'[k - m] == log[k - m - 1];
        }
      }
    }
  }

  /** Prepending adds the new entry and nothing else. */
  lemma PrependAddsOnly(e: Entry, log: seq<Entry>)
    ensures forall x :: x in Prepend(e, log) ==> x == e || x in log
  {
    var r := Prepend(e, log);
    forall x | x in r ensures x == e || x in log {
      var k :| 0 <= k < |r| && r[k] == x;
      if k > 0 {
        assert x == r[1..][k - 1] == log[k - 1];
      }
    }
  }

  /** The last entry prepended is the newest. */
  lemma {:induction false} PrependAllSnoc(es: seq<Entry>, e: Entry, log: seq<Entry>)
    ensures PrependAll(es + [e], log) == Prepend(e, PrependAll(es, log))
    decreases |es|
  {
    if es == [] {
      assert es + [e] == [e];
    } else {
      assert (es + [e])[0] == es[0] && (es + [e])[1..] == es[1..] + [e];
      PrependAllSnoc(es[1..], e, Prepend(es[0], log));
    }
  }

  // ---------------------------------------------------------------------------
  // Stable sort by timestamp

  predicate SortedByTime(s: seq<Entry>) {
    forall i, j :: 0 <= i < j < |s| ==> s[i].timestamp <= s[j].timestamp
  }

  /** The entries of `s` stamped `t`, in their order in `s`. */
  function WithTimestamp(s: seq<Entry>, t: int): (r: seq<Entry>)
    ensures |r| <= |s|
  {
    if s == [] then []
    else WithTimestamp(s[..|s| - 1], t) + (if s[|s| - 1].timestamp == t then [s[|s| - 1]] else [])
  }

  /** `x` placed after the last entry of `s` whose timestamp is not later than x's. */
  function InsertByTime(s: seq<Entry>, x: Entry): (r: seq<Entry>)
    requires SortedByTime(s)
    ensures SortedByTime(r)
    ensures multiset(r) == multiset(s) + multiset{x}
    ensures |r| == |s| + 1 && (r[|s|] == x || (s != [] && r[|s|] == s[|s| - 1]))
  {
    if s == [] || s[|s| - 1].timestamp <= x.timestamp then
      s + [x]
    else
      var last := s[|s| - 1];
      var init := s[..|s| - 1];
      assert s == init + [last];
      var r' := InsertByTime(init, x);
      assert r'[|init|].timestamp <= last.timestamp;
      r' + [last]
  }

  /** Inserting `x` keeps the order among entries of each timestamp, x last among its own. */
  lemma {:induction false} InsertByTimeStable(s: seq<Entry>, x: Entry, t: int)
    requires SortedByTime(s)
    ensures WithTimestamp(InsertByTime(s, x), t) == WithTimestamp(s, t) + (if x.timestamp == t then [x] else [])
  {
    if s == [] || s[|s| - 1].timestamp <= x.timestamp {
      WithTimestampSnoc(s, x, t);
    } else {
      var last := s[|s| - 1];
      var init := s[..|s| - 1];
      var r' := InsertByTime(init, x);
      InsertBeforeLast(s, x);
      InsertByTimeStable(init, x, t);
      WithTimestampSnoc(r', last, t);
      assert WithTimestamp(s, t) == WithTimestamp(init, t) + (if last.timestamp == t then [last] else []);
      EmptyCommutes(WithTimestamp(init, t), if x.timestamp == t then [x] else [], if last.timestamp == t then [last] else []);
    }
  }

  lemma InsertBeforeLast(s: seq<Entry>, x: Entry)
    requires SortedByTime(s) && s != [] && x.timestamp < s[|s| - 1].timestamp
    ensures InsertByTime(s, x) == InsertByTime(s[..|s| - 1], x) + [s[|s| - 1]]
  {
  }

  lemma EmptyCommutes(w: seq<Entry>, a: seq<Entry>, b: seq<Entry>)
    requires a == [] || b == []
    ensures w + a + b == w + b + a
  {
    if a == [] {
      assert w + a == w;
      assert w + b + a == w + b;
    } else {
      assert w + a + b == w + a;
      assert w + b == w;
    }
  }

  lemma WithTimestampSnoc(s: seq<Entry>, y: Entry, t: int)
    ensures WithTimestamp(s + [y], t) == WithTimestamp(s, t) + (if y.timestamp == t then [y] else [])
  {
    assert (s + [y])[..|s|] == s;
  }

  /**
   * `Array.prototype.sort` with the comparator `a.timestamp - b.timestamp`:
   * sorted, a permutation, and stable (entries with equal timestamps keep
   * their relative order), as ECMAScript 2019 requires.
   */
  function SortByTime(s: seq<Entry>): (r: seq<Entry>)
    ensures SortedByTime(r)
    ensures multiset(r) == multiset(s)
    ensures forall t :: WithTimestamp(r, t) == WithTimestamp(s, t)
  {
    if s == [] then []
    else
      var init := s[..|s| - 1];
      assert s == init + [s[|s| - 1]];
      var r := InsertByTime(SortByTime(init), s[|s| - 1]);
      forall t ensures WithTimestamp(r, t) == WithTimestamp(s, t) {
        InsertByTimeStable(SortByTime(init), s[|s| - 1], t);
      }
      r
  }

  // ---------------------------------------------------------------------------
  // The context window

  function ToMessage(e: Entry): Message {
    Message(e.role, e.text)
  }

  /** `map(msg => ({role, content}))`. */
  function Messages(es: seq<Entry>): (r: seq<Message>)
    ensures |r| == |es|
    ensures forall k :: 0 <= k < |es| ==> r[k] == ToMessage(es[k])
  {
    if es == [] then [] else [ToMessage(es[0])] + Messages(es[1..])
  }

  /** `allMessages.slice(-5)` after the sort: the five latest entries. */
  function Recent(users: seq<Entry>, assistants: seq<Entry>): (w: seq<Entry>)
    ensures |w| == Min(WindowSize, |users| + |assistants|)
    ensures SortedByTime(w)
  {
    var all := SortByTime(users + assistants);
    assert |all| == |multiset(all)| == |users + assistants|;
    all[|all| - Min(WindowSize, |all|)..]
  }

  /** `filter(msg => !(msg.role === 'user' && msg.content === m))`. */
  function Without(s: seq<Message>, p: Message): (r: seq<Message>)
    ensures |r| <= |s|
    ensures forall x :: x in r <==> x in s && x != p
    ensures multiset(r) == multiset(s)[p := 0]
  {
    if s == [] then []
    else
      assert s == [s[0]] + s[1..];
      (if s[0] == p then [] else [s[0]]) + Without(s[1..], p)
  }

  /** Every copy of `p` goes, and nothing else: the filter shortens `s` by the count of `p`. */
  lemma {:induction false} WithoutLength(s: seq<Message>, p: Message)
    ensures |Without(s, p)| == |s| - multiset(s)[p]
  {
    if s != [] {
      assert s == [s[0]] + s[1..];
      WithoutLength(s[1..], p);
    }
  }

  /** `a` is `b` with some elements left out, order kept. */
  predicate IsSubsequence<T(==)>(a: seq<T>, b: seq<T>)
    decreases |b|
  {
    if a == [] then true
    else if b == [] then false
    else if a[0] == b[0] then IsSubsequence(a[1..], b[1..])
    else IsSubsequence(a, b[1..])
  }

  lemma {:induction false} WithoutIsSubsequence(s: seq<Message>, p: Message)
    ensures IsSubsequence(Without(s, p), s)
  {
    if s != [] {
      WithoutIsSubsequence(s[1..], p);
      var w := Without(s, p);
      if s[0] != p {
        assert w[0] == s[0] && w[1..] == Without(s[1..], p);
      } else {
        assert w == Without(s[1..], p);
        assert w != [] ==> w[0] in w && w[0] != s[0];
      }
    }
  }

  /**
   * `actuallySendMessage`'s `messages`: the five latest entries of both logs
   * as messages, without any copy of the current command, then the command.
   */
  function ContextWindow(users: seq<Entry>, assistants: seq<Entry>, m: string): (r: seq<Message>)
    ensures 1 <= |r| <= WindowSize + 1
    ensures r[|r| - 1] == Message(User, m)
    ensures forall k :: 0 <= k < |r| - 1 ==> r[k] != Message(User, m)
    ensures IsSubsequence(r[..|r| - 1], Messages(Recent(users, assistants)))
    ensures multiset(r[..|r| - 1]) == multiset(Messages(Recent(users, assistants)))[Message(User, m) := 0]
  {
    var mapped := Messages(Recent(users, assistants));
    var earlier := Without(mapped, Message(User, m));
    assert IsSubsequence(earlier, mapped) by {
      WithoutIsSubsequence(mapped, Message(User, m));
    }
    var r := earlier + [Message(User, m)];
    assert r[..|r| - 1] == earlier;
    assert forall k :: 0 <= k < |r| - 1 ==> r[k] != Message(User, m) by {
      forall k | 0 <= k < |r| - 1 ensures r[k] != Message(User, m) {
        assert r[k] == earlier[k];
        assert earlier[k] in earlier;
      }
    }
    r
  }

  /** In a sorted sequence no entry before `cut` is later than one from `cut` on. */
  lemma SortedSuffixIsLatest(all: seq<Entry>, cut: nat)
    requires SortedByTime(all) && cut <= |all|
    ensures multiset(all[cut..]) <= multiset(all)
    ensures forall x, y :: (x in multiset(all) - multiset(all[cut..]) && y in all[cut..]) ==> x.timestamp <= y.timestamp
  {
    assert all == all[..cut] + all[cut..];
    assert multiset(all) == multiset(all[..cut]) + multiset(all[cut..]);
    forall x, y | x in multiset(all) - multiset(all[cut..]) && y in all[cut..]
      ensures x.timestamp <= y.timestamp
    {
      assert x in all[..cut];
      var i :| 0 <= i < cut && all[i] == x;
      var j :| cut <= j < |all| && all[j] == y;
    }
  }

  /** The window is taken from the latest entries: no entry left out is later than one kept. */
  lemma RecentAreLatest(users: seq<Entry>, assistants: seq<Entry>)
    ensures multiset(Recent(users, assistants)) <= multiset(users + assistants)
    ensures forall x, y ::
              (x in multiset(users + assistants) - multiset(Recent(users, assistants)) && y in Recent(users, assistants))
              ==> x.timestamp <= y.timestamp
  {
    var all := SortByTime(users + assistants);
    assert |all| == |multiset(all)| == |users + assistants|;
    var cut := |all| - Min(WindowSize, |all|);
    assert Recent(users, assistants) == all[cut..];
    SortedSuffixIsLatest(all, cut);
  }

  /**
   * The window holds the latest min(5, n) entries of the n logged, less every
   * one that already is the current command, plus the command itself.
   */
  lemma WindowLength(users: seq<Entry>, assistants: seq<Entry>, m: string)
    ensures |ContextWindow(users, assistants, m)|
         == Min(WindowSize, |users| + |assistants|) + 1 - multiset(Messages(Recent(users, assistants)))[Message(User, m)]
  {
    WithoutLength(Messages(Recent(users, assistants)), Message(User, m));
  }

  lemma {:induction false} WithoutNothing(s: seq<Message>, p: Message)
    requires forall k :: 0 <= k < |s| ==> s[k] != p
    ensures Without(s, p) == s
  {
    if s != [] {
      WithoutNothing(s[1..], p);
    }
  }
}

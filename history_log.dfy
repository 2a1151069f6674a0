/** The bounded history list: `calculate` prepends the new item and keeps the first 20
    entries (`[newItem, ...history].slice(0, 20)`), so the list is newest-first. */
module HistoryLog {
  import opened Types

  const Capacity: nat := 20

  /** `s.slice(0, n)`: the first `n` elements, or all of them when there are fewer. */
  function Take<T>(s: seq<T>, n: nat): (r: seq<T>)
    ensures |r| == if |s| < n then |s| else n
    ensures forall i :: 0 <= i < |r| ==> r[i] == s[i]
  {
    if |s| <= n then s else s[..n]
  }

  /** Prepend `item` and keep the first `Capacity` entries. */
  function Record(item: HistoryItem, log: seq<HistoryItem>): (r: seq<HistoryItem>)
    ensures 1 <= |r| <= Capacity
    ensures |r| == if |log| < Capacity then |log| + 1 else Capacity
    ensures r[0] == item
    ensures forall i :: 1 <= i < |r| ==> r[i] == log[i - 1]
  {
    Take([item] + log, Capacity)
  }

  /** Below the cap nothing is lost; at or above it, exactly the entries from position
      `Capacity - 1` on (the oldest ones) are evicted. */
  lemma RecordEvicts(item: HistoryItem, log: seq<HistoryItem>)
    ensures |log| < Capacity ==> Record(item, log) == [item] + log
    ensures |log| >= Capacity ==> Record(item, log) == [item] + log[..Capacity - 1]
  {
  }

  /** Record several items, the first of `items` first. */
  function RecordAll(items: seq<HistoryItem>, log: seq<HistoryItem>): seq<HistoryItem>
    decreases |items|
  {
    if items == [] then log else RecordAll(items[1..], Record(items[0], log))
  }

  function Reverse<T>(s: seq<T>): (r: seq<T>)
    ensures |r| == |s|
    ensures forall i :: 0 <= i < |s| ==> r[i] == s[|s| - 1 - i]
  {
    if s == [] then [] else Reverse(s[1..]) + [s[0]]
  }

  /** After any run of calculations the log is the newest `Capacity` items, newest first:
      the new items in reverse order, followed by the old log. */
  lemma {:induction false} RecordAllNewestFirst(items: seq<HistoryItem>, log: seq<HistoryItem>)
    requires |log| <= Capacity
    ensures RecordAll(items, log) == Take(Reverse(items) + log, Capacity)
    decreases |items|
  {
    if items == [] {
      assert Reverse(items) + log == log;
    } else {
      var x, rest := items[0], items[1..];
      RecordAllNewestFirst(rest, Record(x, log));
      assert Reverse(items) == Reverse(rest) + [x];
      assert Reverse(items) + log == Reverse(rest) + ([x] + log);
      TakeAfter(Reverse(rest), [x] + log, Capacity);
    }
  }

  /** Truncating the tail before appending it behind a prefix does not matter. */
  lemma TakeAfter<T>(p: seq<T>, s: seq<T>, n: nat)
    ensures Take(p + Take(s, n), n) == Take(p + s, n)
  {
  }
}

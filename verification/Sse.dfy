/**
 The streaming counter of server-sent events (pkg/broker/sse.go): bytes without a complete delimiter are
 carried from one Write to the next. An event ends at LF-LF or CRLF-CRLF and nowhere else.
 */
module Sse {
  import opened Prelude

  const LF := '\n'
  const CR := '\r'

  /** A delimiter starts at position i: its length, or 0. */
  function DelimiterAt(buf: string, i: nat): (n: nat)
    ensures i + n <= |buf| || n == 0
  {
    if i + 1 < |buf| && buf[i] == LF && buf[i + 1] == LF then 2
    else if i + 3 < |buf| && buf[i] == CR && buf[i + 1] == LF && buf[i + 2] == CR && buf[i + 3] == LF then 4
    else 0
  }

  /** Cut at the leftmost delimiter, then go on behind it: the number of cuts and what is left. */
  function Split(buf: string, i: nat): (r: (nat, string))
    requires i <= |buf|
    ensures |r.1| <= |buf|
    decreases |buf|, |buf| - i
  {
    if i == |buf| then (0, buf)
    else
      var n := DelimiterAt(buf, i);
      if n == 0 then Split(buf, i + 1)
      else
        var rest := Split(buf[i + n..], 0);
        (1 + rest.0, rest.1)
  }

  function Events(buf: string): nat {
    Split(buf, 0).0
  }

  function Remainder(buf: string): string {
    Split(buf, 0).1
  }

  ghost predicate NoDelimiter(buf: string) {
    forall i :: 0 <= i < |buf| ==> DelimiterAt(buf, i) == 0
  }

  /** One event: its only delimiter, taken leftmost first, is at its end. */
  ghost predicate IsEvent(event: string) {
    exists i :: 0 <= i < |event| && DelimiterAt(event, i) != 0 && i + DelimiterAt(event, i) == |event|
                && NoneBefore(event, i)
  }

  ghost predicate NoneBefore(buf: string, i: nat)
    requires i <= |buf|
  {
    forall j :: 0 <= j < i ==> DelimiterAt(buf, j) == 0
  }

  /** `buf` is these events one after the other, then a rest without a delimiter: no byte lost or reordered. */
  ghost predicate Consists(buf: string, events: seq<string>, rest: string) {
    if events == [] then buf == rest && NoDelimiter(rest)
    else IsEvent(events[0]) && events[0] <= buf && Consists(buf[|events[0]|..], events[1..], rest)
  }

  lemma NoEvents(buf: string)
    requires NoneBefore(buf, |buf|)
    ensures Consists(buf, [], buf)
  {
  }

  lemma {:induction false} OneMoreEvent(buf: string, m: nat, events: seq<string>, rest: string)
    requires m <= |buf| && IsEvent(buf[..m]) && Consists(buf[m..], events, rest)
    ensures Consists(buf, [buf[..m]] + events, rest)
  {
    hide IsEvent;
    var all := [buf[..m]] + events;
    assert all[1..] == events && buf[|all[0]|..] == buf[m..];
  }

  lemma {:induction false} SplitConsists(buf: string, i: nat) returns (events: seq<string>)
    requires i <= |buf| && NoneBefore(buf, i)
    ensures |events| == Split(buf, i).0 && Consists(buf, events, Split(buf, i).1)
    decreases |buf|, |buf| - i
  {
    hide Consists, IsEvent, DelimiterAt;
    if i == |buf| {
      NoEvents(buf);
      events := [];
    } else {
      var n := DelimiterAt(buf, i);
      if n == 0 {
        events := SplitConsists(buf, i + 1);
      } else {
        var rest := SplitConsists(buf[i + n..], 0);
        FirstEvent(buf, i);
        OneMoreEvent(buf, i + n, rest, Split(buf[i + n..], 0).1);
        events := [buf[..i + n]] + rest;
      }
    }
  }

  lemma {:induction false} FirstEvent(buf: string, i: nat)
    requires i < |buf| && NoneBefore(buf, i) && DelimiterAt(buf, i) != 0
    ensures IsEvent(buf[..i + DelimiterAt(buf, i)])
  {
    var event := buf[..i + DelimiterAt(buf, i)];
    assert forall j :: 0 <= j < |event| ==> event[j] == buf[j];
    assert DelimiterAt(event, i) == DelimiterAt(buf, i);
    assert NoneBefore(event, i) by {
      forall j | 0 <= j < i
        ensures DelimiterAt(event, j) == 0
      {
        assert DelimiterAt(buf, j) == 0;
      }
    }
  }

  // ---------------------------------------------------------------- in terms of bytes

  /** The bytes `pattern` are at position i. */
  ghost predicate Found(buf: string, i: nat, pattern: string) {
    i + |pattern| <= |buf| && buf[i..i + |pattern|] == pattern
  }

  /** LF-LF and CRLF-CRLF are delimiters, and nothing else is. */
  lemma {:induction false} DelimiterMeans(buf: string, i: nat)
    ensures DelimiterAt(buf, i) == 2 <==> Found(buf, i, "\n\n")
    ensures DelimiterAt(buf, i) == 4 <==> Found(buf, i, "\r\n\r\n")
    ensures DelimiterAt(buf, i) in {0, 2, 4}
  {
    if i + 2 <= |buf| {
      assert buf[i..i + 2] == [buf[i], buf[i + 1]];
    }
    if i + 4 <= |buf| {
      assert buf[i..i + 4] == [buf[i], buf[i + 1], buf[i + 2], buf[i + 3]];
    }
  }

  /** Neither of the two starts before position n. */
  ghost predicate NoneFound(buf: string, n: nat) {
    forall i :: 0 <= i < n ==> !Found(buf, i, "\n\n") && !Found(buf, i, "\r\n\r\n")
  }

  lemma {:induction false} NoDelimiterMeans(buf: string, n: nat)
    requires n <= |buf|
    ensures NoneBefore(buf, n) <==> NoneFound(buf, n)
  {
    hide DelimiterAt, Found;
    forall i | 0 <= i < n
      ensures DelimiterAt(buf, i) == 0 <==> !Found(buf, i, "\n\n") && !Found(buf, i, "\r\n\r\n")
    {
      DelimiterMeans(buf, i);
    }
  }

  /** An event ends with LF-LF or CRLF-CRLF, and neither of the two starts earlier in it. */
  lemma {:induction false} EventMeans(event: string)
    ensures IsEvent(event) <==>
              exists i :: 0 <= i <= |event| && (event[i..] == "\n\n" || event[i..] == "\r\n\r\n") && NoneFound(event, i)
  {
    hide DelimiterAt, NoneFound, NoneBefore;
    if IsEvent(event) {
      var i :| && 0 <= i < |event| && DelimiterAt(event, i) != 0 && i + DelimiterAt(event, i) == |event|
               && NoneBefore(event, i);
      DelimiterMeans(event, i);
      NoDelimiterMeans(event, i);
      assert event[i..] == event[i..i + DelimiterAt(event, i)];
    }
    if i :| 0 <= i <= |event| && (event[i..] == "\n\n" || event[i..] == "\r\n\r\n") && NoneFound(event, i) {
      assert event[i..] == event[i..i + |event[i..]|];
      DelimiterMeans(event, i);
      NoDelimiterMeans(event, i);
    }
  }

  /** The events and the rest are all the bytes, in order. */
  lemma {:induction false} ConsistsOf(buf: string, events: seq<string>, rest: string)
    requires Consists(buf, events, rest)
    ensures buf == Concat(events) + rest
  {
    hide IsEvent, NoDelimiter;
    if events == [] {
      assert Concat(events) + rest == rest;
    } else {
      ConsistsOf(buf[|events[0]|..], events[1..], rest);
      ConcatFirst(events);
      assert buf == events[0] + buf[|events[0]|..];
    }
  }

  lemma Regroup(a: string, b: string, c: string)
    ensures a + b + c == a + (b + c)
  {
  }

  lemma {:induction false} ConcatFirst(chunks: seq<string>)
    requires chunks != []
    ensures Concat(chunks) == chunks[0] + Concat(chunks[1..])
  {
    var n := |chunks| - 1;
    if n == 0 {
      assert Concat(chunks[..0]) == "" && Concat(chunks[1..]) == "";
    } else {
      var head, middle, last := chunks[0], Concat(chunks[1..n]), chunks[n];
      ConcatFirst(chunks[..n]);
      assert chunks[..n][1..] == chunks[1..n] == chunks[1..][..n - 1];
      assert Concat(chunks[1..]) == middle + last;
      Regroup(head, middle, last);
    }
  }

  /** A stream has only one such decomposition, so the count and the carry are determined by its bytes. */
  lemma {:induction false} ConsistsOnce(buf: string, a: seq<string>, restA: string, b: seq<string>, restB: string)
    requires Consists(buf, a, restA) && Consists(buf, b, restB)
    ensures a == b && restA == restB
    decreases |a|
  {
    hide IsEvent, NoDelimiter;
    if a == [] && b == [] {
    } else if a == [] {
      EventHasDelimiter(buf, b[0]);
    } else if b == [] {
      EventHasDelimiter(buf, a[0]);
    } else {
      SameFirst(buf, a[0], b[0]);
      ConsistsOnce(buf[|a[0]|..], a[1..], restA, b[1..], restB);
      assert a == [a[0]] + a[1..] && b == [b[0]] + b[1..];
    }
  }

  lemma {:induction false} EventHasDelimiter(buf: string, event: string)
    requires IsEvent(event) && event <= buf
    ensures !NoDelimiter(buf)
  {
    var i :| && 0 <= i < |event| && DelimiterAt(event, i) != 0 && i + DelimiterAt(event, i) == |event|
               && NoneBefore(event, i);
    assert DelimiterAt(buf, i) != 0;
  }

  lemma {:induction false} SameFirst(buf: string, a: string, b: string)
    requires IsEvent(a) && IsEvent(b) && a <= buf && b <= buf
    ensures a == b
  {
    var i :| 0 <= i < |a| && DelimiterAt(a, i) != 0 && i + DelimiterAt(a, i) == |a| && NoneBefore(a, i);
    var j :| 0 <= j < |b| && DelimiterAt(b, j) != 0 && j + DelimiterAt(b, j) == |b| && NoneBefore(b, j);
    EventPrefix(buf, a, i);
    EventPrefix(buf, b, j);
    assert i == j;
    assert a == buf[..|a|] && b == buf[..|b|];
  }

  /** The delimiter of a leading event is the first of the whole. */
  lemma {:induction false} EventPrefix(buf: string, event: string, i: nat)
    requires event <= buf && i < |event| && DelimiterAt(event, i) != 0 && i + DelimiterAt(event, i) == |event|
    requires NoneBefore(event, i)
    ensures NoneBefore(buf, i) && DelimiterAt(buf, i) == DelimiterAt(event, i)
  {
    var tail := buf[|event|..];
    assert buf == event + tail;
    BeforeFirst(event, tail, i);
    DelimiterStable(event, tail, i);
  }

  // ---------------------------------------------------------------- the scan loop

  /** One turn of the scan, at position i of an unfinished event that starts at `start`. */
  lemma {:induction false} ScanTurn(buf: string, start: nat, i: nat)
    requires start <= i < |buf|
    ensures var n := DelimiterAt(buf, i);
            Split(buf[start..], i - start)
            == if n == 0 then Split(buf[start..], i + 1 - start)
               else (1 + Split(buf[i + n..], 0).0, Split(buf[i + n..], 0).1)
  {
    hide DelimiterAt;
    DelimiterInSuffix(buf, start, i);
    var n := DelimiterAt(buf, i);
    if n != 0 {
      assert buf[start..][i - start + n..] == buf[i + n..];
    }
  }

  /** splitSSEEvents: one pass with an index and the start of the unfinished event. */
  method SplitSSEEvents(buf: string) returns (count: nat, remainder: string)
    ensures count == Events(buf) && remainder == Remainder(buf)
  {
    hide Split;
    var start, i := 0, 0;
    count := 0;
    assert buf[0..] == buf;
    while i + 1 < |buf|
      invariant start <= i <= |buf|
      invariant var rest := Split(buf[start..], i - start);
                Events(buf) == count + rest.0 && Remainder(buf) == rest.1
    {
      ScanTurn(buf, start, i);
      if buf[i] == LF && buf[i + 1] == LF {
        count, start, i := count + 1, i + 2, i + 2;
        continue;
      }
      if i + 3 < |buf| && buf[i] == CR && buf[i + 1] == LF && buf[i + 2] == CR && buf[i + 3] == LF {
        count, start, i := count + 1, i + 4, i + 4;
        continue;
      }
      i := i + 1;
    }
    LastByte(buf[start..], i - start);
    remainder := buf[start..];
  }

  lemma DelimiterInSuffix(buf: string, start: nat, i: nat)
    requires start <= i <= |buf|
    ensures DelimiterAt(buf[start..], i - start) == DelimiterAt(buf, i)
  {
  }

  lemma LastByte(buf: string, i: nat)
    requires |buf| - 1 <= i <= |buf|
    ensures Split(buf, i) == (0, buf)
  {
  }

  // ---------------------------------------------------------------- across writes

  lemma {:induction false} SplitRemainder(buf: string, i: nat)
    requires i <= |buf| && NoneBefore(buf, i)
    ensures NoDelimiter(Split(buf, i).1)
    decreases |buf|, |buf| - i
  {
    if i < |buf| {
      var n := DelimiterAt(buf, i);
      if n == 0 {
        SplitRemainder(buf, i + 1);
      } else {
        SplitRemainder(buf[i + n..], 0);
      }
    }
  }

  /** A longer buffer never changes what has been recognised; a delimiter cannot be half seen as another one. */
  lemma DelimiterStable(a: string, b: string, i: nat)
    requires i < |a|
    ensures DelimiterAt(a, i) != 0 ==> DelimiterAt(a + b, i) == DelimiterAt(a, i)
    ensures DelimiterAt(a, i) == 0 && DelimiterAt(a + b, i) != 0 ==> i + DelimiterAt(a + b, i) > |a|
  {
  }

  /** Skipping positions without a delimiter. */
  lemma {:induction false} SkipTo(buf: string, i: nat, k: nat)
    requires i <= k <= |buf| && forall j :: i <= j < k ==> DelimiterAt(buf, j) == 0
    ensures Split(buf, i) == Split(buf, k)
    decreases k - i
  {
    if i < k {
      SkipTo(buf, i + 1, k);
    }
  }

  lemma {:induction false} FirstCut(a: string, b: string, i: nat)
    requires i < |a| && DelimiterAt(a, i) != 0 && NoneBefore(a, i)
    ensures var rest := Split(a[i + DelimiterAt(a, i)..] + b, 0);
            Split(a + b, 0) == (1 + rest.0, rest.1)
  {
    hide DelimiterAt, Split;
    BeforeFirst(a, b, i);
    DelimiterStable(a, b, i);
    SkipTo(a + b, 0, i);
    SplitHere(a + b, i);
    var n := DelimiterAt(a, i);
    assert (a + b)[i + n..] == a[i + n..] + b;
  }

  lemma {:induction false} SplitHere(buf: string, i: nat)
    requires i < |buf| && DelimiterAt(buf, i) != 0
    ensures var rest := Split(buf[i + DelimiterAt(buf, i)..], 0);
            Split(buf, i) == (1 + rest.0, rest.1)
  {
    hide DelimiterAt;
  }

  /** Splitting a + b is splitting a, then its remainder followed by b. */
  lemma {:induction false} SplitConcat(a: string, b: string, i: nat)
    requires i <= |a| && NoneBefore(a, i)
    ensures var left := Split(a, i);
            var right := Split(left.1 + b, 0);
            Split(a + b, 0) == (left.0 + right.0, right.1)
    decreases |a|, |a| - i
  {
    hide DelimiterAt;
    if i < |a| {
      var n := DelimiterAt(a, i);
      if n == 0 {
        SplitConcat(a, b, i + 1);
      } else {
        FirstCut(a, b, i);
        SplitConcat(a[i + n..], b, 0);
      }
    }
  }

  /** In front of the first delimiter of a, nothing appears when b is added. */
  lemma {:induction false} BeforeFirst(a: string, b: string, i: nat)
    requires i < |a| && DelimiterAt(a, i) != 0 && NoneBefore(a, i)
    ensures NoneBefore(a + b, i)
  {
    forall j | 0 <= j < i
      ensures DelimiterAt(a + b, j) == 0
    {
      DelimiterStable(a, b, j);
    }
  }

  function Concat(chunks: seq<string>): string {
    if chunks == [] then "" else Concat(chunks[..|chunks| - 1]) + chunks[|chunks| - 1]
  }

  /** The recorder: the events counted so far and the carried bytes. */
  class StreamRecorder {
    var carry: string
    var counter: nat
    /** The bytes of every Write so far. */
    ghost var written: string

    /** However the stream was cut into writes, the totals are those of one scan over the whole of it. */
    ghost predicate Valid()
      reads this
    {
      counter == Events(written) && carry == Remainder(written)
    }

    constructor ()
      ensures Valid() && written == ""
    {
      carry, counter, written := "", 0, "";
    }

    method CountEvents(p: string)
      requires Valid()
      modifies this
      ensures Valid() && written == old(written) + p
      ensures NoDelimiter(carry)
      ensures exists events :: Consists(written, events, carry) && |events| == counter
    {
      var buf := if |carry| > 0 then carry + p else p;
      assert buf == carry + p;
      SplitConcat(written, p, 0);
      SplitRemainder(buf, 0);
      var events, remainder := SplitSSEEvents(buf);
      if events > 0 {
        counter := counter + events;
      }
      carry := remainder;
      written := written + p;
      ghost var counted := SplitConsists(written, 0);
      assert Consists(written, counted, carry);
    }

    /** Any stream in any chunks: one event counted per delimiter of the whole stream, taken leftmost first. */
    method WriteAll(chunks: seq<string>)
      requires Valid() && written == ""
      modifies this
      ensures counter == Events(Concat(chunks)) && carry == Remainder(Concat(chunks))
      ensures exists events :: Consists(Concat(chunks), events, carry) && |events| == counter
    {
      for k := 0 to |chunks|
        invariant Valid() && written == Concat(chunks[..k])
      {
        assert chunks[..k + 1][..k] == chunks[..k];
        CountEvents(chunks[k]);
      }
      assert chunks[..|chunks|] == chunks;
      ghost var counted := SplitConsists(written, 0);
      assert Consists(written, counted, carry);
    }
  }

  /** Two ways of cutting the same bytes leave the same count and the same carry. */
  method AnyTwoCuts(a: seq<string>, b: seq<string>)
    returns (countA: nat, carryA: string, countB: nat, carryB: string)
    ensures Concat(a) == Concat(b) ==> countA == countB && carryA == carryB
    ensures NoDelimiter(carryA) && NoDelimiter(carryB)
  {
    var x := new StreamRecorder();
    x.WriteAll(a);
    SplitRemainder(Concat(a), 0);
    var y := new StreamRecorder();
    y.WriteAll(b);
    SplitRemainder(Concat(b), 0);
    countA, carryA, countB, carryB := x.counter, x.carry, y.counter, y.carry;
  }
}

/**
 * The reassembly of newline-terminated messages from notification chunks
 * (`handleNotification` in `useBluetooth`): each chunk is appended to a
 * pending buffer, the buffer is split on `'\n'`, the last piece is kept as
 * the new buffer and every earlier piece is a complete raw line. Raw lines
 * are trimmed, and the ones that are empty after trimming are dropped.
 */
module LineBuffer {
  import opened Text

  /** Every line is free of the delimiter. */
  predicate NoNewlines(lines: seq<string>) {
    forall i :: 0 <= i < |lines| ==> '\n' !in lines[i]
  }

  /** The text the device sent for these lines: each line followed by its `'\n'`. */
  function Terminated(lines: seq<string>): string
  {
    if |lines| == 0 then "" else lines[0] + "\n" + Terminated(lines[1..])
  }

  /** Chunks concatenated in arrival order. */
  function Concat(chunks: seq<string>): string
  {
    if |chunks| == 0 then "" else chunks[0] + Concat(chunks[1..])
  }

  lemma {:induction false} TerminatedAppend(a: seq<string>, b: seq<string>)
    ensures Terminated(a + b) == Terminated(a) + Terminated(b)
    decreases |a|
  {
    if |a| > 0 {
      assert (a + b)[1..] == a[1..] + b;
      TerminatedAppend(a[1..], b);
    } else {
      assert a + b == b;
    }
  }

  /** Joining split pieces is the same as terminating all but the last and appending it. */
  lemma {:induction false} JoinIsTerminated(parts: seq<string>)
    requires |parts| >= 1
    ensures Join(parts, '\n') == Terminated(parts[..|parts| - 1]) + parts[|parts| - 1]
    decreases |parts|
  {
    if |parts| > 1 {
      JoinIsTerminated(parts[1..]);
      assert parts[1..][..|parts| - 2] == parts[..|parts| - 1][1..];
    }
  }

  /** A split text is exactly its terminated lines followed by a delimiter-free rest, and only that. */
  lemma {:induction false} SplitTerminated(lines: seq<string>, rest: string)
    requires NoNewlines(lines) && '\n' !in rest
    ensures Split(Terminated(lines) + rest, '\n') == lines + [rest]
    decreases |lines|
  {
    if |lines| == 0 {
      assert Terminated(lines) + rest == rest;
      SplitNoSeparator(rest, '\n');
    } else {
      SplitTerminated(lines[1..], rest);
      assert Terminated(lines) + rest == lines[0] + ['\n'] + (Terminated(lines[1..]) + rest);
      SplitAfterPiece(lines[0], '\n', Terminated(lines[1..]) + rest);
      assert [lines[0]] + (lines[1..] + [rest]) == lines + [rest];
    }
  }

  /** The complete raw lines found by one notification, and the incomplete rest kept as the buffer. */
  datatype Fed = Fed(lines: seq<string>, rest: string)

  /**
   * One chunk appended to the buffer: no character is lost, every complete
   * line ends at a `'\n'`, and the buffer that is kept holds no `'\n'`.
   */
  function Feed(buffer: string, chunk: string): (f: Fed)
    ensures NoNewlines(f.lines) && '\n' !in f.rest
    ensures buffer + chunk == Terminated(f.lines) + f.rest
  {
    var parts := Split(buffer + chunk, '\n');
    JoinSplit(buffer + chunk, '\n');
    JoinIsTerminated(parts);
    Fed(parts[..|parts| - 1], parts[|parts| - 1])
  }

  /** The split is unique: any lossless line decomposition of the text is the one `Feed` finds. */
  lemma FeedUnique(buffer: string, chunk: string, lines: seq<string>, rest: string)
    requires NoNewlines(lines) && '\n' !in rest
    requires buffer + chunk == Terminated(lines) + rest
    ensures Feed(buffer, chunk) == Fed(lines, rest)
  {
    SplitTerminated(lines, rest);
    assert (lines + [rest])[..|lines|] == lines;
  }

  /** A chunk without a newline, onto a buffer without one, completes no line and just extends the buffer. */
  lemma FeedWithoutNewline(buffer: string, chunk: string)
    requires '\n' !in buffer && '\n' !in chunk
    ensures Feed(buffer, chunk) == Fed([], buffer + chunk)
  {
    FeedUnique(buffer, chunk, [], buffer + chunk);
  }

  /** What one raw line contributes: its trim, unless that is empty. */
  function Kept(line: string): (ms: seq<string>)
    ensures |ms| <= 1
    ensures ms == [] <==> Trim(line) == ""
  {
    var t := Trim(line);
    if t == "" then [] else [t]
  }

  /** The messages passed on for raw lines: each line trimmed, the empty ones dropped, order kept. */
  function Messages(lines: seq<string>): (ms: seq<string>)
    ensures |ms| <= |lines|
  {
    if |lines| == 0 then [] else Kept(lines[0]) + Messages(lines[1..])
  }

  /** What is passed on to the measurement callback: a non-empty trimmed string. */
  predicate IsMessage(m: string) {
    m != "" && IsTrimmed(m)
  }

  /** Every element of `ms` is a message. */
  predicate AllMessages(ms: seq<string>) {
    forall i :: 0 <= i < |ms| ==> IsMessage(ms[i])
  }

  lemma AllMessagesAppend(a: seq<string>, b: seq<string>)
    requires AllMessages(a) && AllMessages(b)
    ensures AllMessages(a + b)
  {
    assert forall i :: |a| <= i < |a + b| ==> (a + b)[i] == b[i - |a|];
  }

  lemma NoNewlinesAppend(a: seq<string>, b: seq<string>)
    requires NoNewlines(a) && NoNewlines(b)
    ensures NoNewlines(a + b)
  {
    assert forall i :: |a| <= i < |a + b| ==> (a + b)[i] == b[i - |a|];
  }

  /** What a line contributes is a message. */
  lemma KeptIsMessage(line: string)
    ensures AllMessages(Kept(line))
  {
  }

  /** A line without a newline contributes nothing with one. */
  lemma KeptNoNewline(line: string)
    requires '\n' !in line
    ensures NoNewlines(Kept(line))
  {
    TrimKeepsOut(line, '\n');
  }

  /** Every message passed on is non-empty and trimmed. */
  lemma {:induction false} MessagesTrimmed(lines: seq<string>)
    ensures AllMessages(Messages(lines))
    decreases |lines|
  {
    if |lines| > 0 {
      assert Messages(lines) == Kept(lines[0]) + Messages(lines[1..]);
      KeptIsMessage(lines[0]);
      MessagesTrimmed(lines[1..]);
      AllMessagesAppend(Kept(lines[0]), Messages(lines[1..]));
    }
  }

  /** Lines without a newline give messages without one. */
  lemma {:induction false} MessagesNoNewlines(lines: seq<string>)
    requires NoNewlines(lines)
    ensures NoNewlines(Messages(lines))
    decreases |lines|
  {
    if |lines| > 0 {
      assert Messages(lines) == Kept(lines[0]) + Messages(lines[1..]);
      KeptNoNewline(lines[0]);
      assert NoNewlines(lines[1..]) by {
        assert forall i :: 0 <= i < |lines[1..]| ==> lines[1..][i] == lines[i + 1];
      }
      MessagesNoNewlines(lines[1..]);
      NoNewlinesAppend(Kept(lines[0]), Messages(lines[1..]));
    }
  }

  /** Messages of consecutive batches of lines are the batches' messages, in the same order. */
  lemma {:induction false} MessagesAppend(a: seq<string>, b: seq<string>)
    ensures Messages(a + b) == Messages(a) + Messages(b)
    decreases |a|
  {
    if |a| == 0 {
      assert a + b == b;
    } else {
      var head := Kept(a[0]);
      assert (a + b)[0] == a[0] && (a + b)[1..] == a[1..] + b;
      MessagesAppend(a[1..], b);
      calc {
        Messages(a + b);
        head + Messages(a[1..] + b);
        head + (Messages(a[1..]) + Messages(b));
        (head + Messages(a[1..])) + Messages(b);
      }
    }
  }

  /** Some raw line trims to `m`. */
  predicate TrimsTo(lines: seq<string>, m: string) {
    exists i :: 0 <= i < |lines| && Trim(lines[i]) == m
  }

  /** Some line trims to `m` when the first one does or one of the others does. */
  lemma TrimsToCons(lines: seq<string>, m: string)
    requires |lines| > 0
    ensures TrimsTo(lines, m) <==> Trim(lines[0]) == m || TrimsTo(lines[1..], m)
  {
    var tail := lines[1..];
    if TrimsTo(tail, m) {
      var i :| 0 <= i < |tail| && Trim(tail[i]) == m;
      assert Trim(lines[i + 1]) == m;
    }
    if TrimsTo(lines, m) {
      var i :| 0 <= i < |lines| && Trim(lines[i]) == m;
      if i > 0 {
        assert Trim(tail[i - 1]) == m;
      }
    }
  }

  /** A line contributes `m` exactly when `m` is its non-empty trim. */
  lemma KeptMembership(line: string, m: string)
    ensures m in Kept(line) <==> m != "" && Trim(line) == m
  {
  }

  /** A message is passed on exactly when it is the non-empty trim of some raw line. */
  lemma {:induction false} MessagesMembership(lines: seq<string>, m: string)
    ensures m in Messages(lines) <==> m != "" && TrimsTo(lines, m)
    decreases |lines|
  {
    if |lines| > 0 {
      assert Messages(lines) == Kept(lines[0]) + Messages(lines[1..]);
      MessagesMembership(lines[1..], m);
      KeptMembership(lines[0], m);
      TrimsToCons(lines, m);
    }
  }

  /** Chunks processed one notification at a time. */
  function FeedAll(buffer: string, chunks: seq<string>): (f: Fed)
    ensures NoNewlines(f.lines) && ('\n' !in f.rest || (|chunks| == 0 && f.rest == buffer))
    decreases |chunks|
  {
    if |chunks| == 0 then Fed([], buffer)
    else
      var first := Feed(buffer, chunks[0]);
      var later := FeedAll(first.rest, chunks[1..]);
      Fed(first.lines + later.lines, later.rest)
  }

  /** No loss over a whole session: the buffer and all chunks are the lines sent plus the final buffer. */
  lemma {:induction false} FeedAllNoLoss(buffer: string, chunks: seq<string>)
    ensures buffer + Concat(chunks) == Terminated(FeedAll(buffer, chunks).lines) + FeedAll(buffer, chunks).rest
    decreases |chunks|
  {
    if |chunks| > 0 {
      var first := Feed(buffer, chunks[0]);
      var later := FeedAll(first.rest, chunks[1..]);
      assert FeedAll(buffer, chunks) == Fed(first.lines + later.lines, later.rest);
      assert first.rest + Concat(chunks[1..]) == Terminated(later.lines) + later.rest by {
        FeedAllNoLoss(first.rest, chunks[1..]);
      }
      assert Terminated(first.lines + later.lines) == Terminated(first.lines) + Terminated(later.lines) by {
        TerminatedAppend(first.lines, later.lines);
      }
      assert buffer + Concat(chunks) == (buffer + chunks[0]) + Concat(chunks[1..]);
      Regroup(buffer + chunks[0], Concat(chunks[1..]), Terminated(first.lines), first.rest,
              Terminated(later.lines), later.rest);
    }
  }

  /** If `x` is `t1` then `r1`, and `r1` then `y` is `t2` then `r2`, then `x` then `y` is `t1`, `t2`, `r2`. */
  lemma Regroup(x: string, y: string, t1: string, r1: string, t2: string, r2: string)
    requires x == t1 + r1 && r1 + y == t2 + r2
    ensures x + y == (t1 + t2) + r2
  {
    calc {
      x + y;
      (t1 + r1) + y;
      t1 + (r1 + y);
      t1 + (t2 + r2);
      (t1 + t2) + r2;
    }
  }

  /**
   * How the stream is cut into chunks does not matter: feeding the chunks
   * one by one finds the same lines and keeps the same buffer as feeding
   * their concatenation at once.
   */
  lemma ChunkingInvariance(buffer: string, chunks: seq<string>)
    requires |chunks| > 0 || '\n' !in buffer
    ensures FeedAll(buffer, chunks) == Feed(buffer, Concat(chunks))
  {
    var all := FeedAll(buffer, chunks);
    FeedAllNoLoss(buffer, chunks);
    FeedUnique(buffer, Concat(chunks), all.lines, all.rest);
  }
}

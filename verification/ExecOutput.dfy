/** The shared stdout/stderr capture of pkg/kubernetes/pods.go. */
module ExecOutput {
  import opened Utf8
  import opened Wrappers

  datatype Stream = Stdout | Stderr
  /** One Write call: the stream it came in on and its bytes. */
  datatype Chunk = Chunk(stream: Stream, data: bytes)

  const EXEC_NOTICE: bytes := Ascii("\n[truncated: max_backend_response_bytes]\n")

  // -------------------------------------------------- arrival order and projection

  /** The bytes in the order they arrived, each with its stream. */
  function Merge(chunks: seq<Chunk>): seq<(Stream, byte)> {
    if chunks == [] then [] else Tagged(chunks[0]) + Merge(chunks[1..])
  }

  function Tagged(c: Chunk): (r: seq<(Stream, byte)>)
    ensures |r| == |c.data|
  {
    seq(|c.data|, i requires 0 <= i < |c.data| => (c.stream, c.data[i]))
  }

  /** What arrived on one stream. */
  function Project(stream: Stream, tagged: seq<(Stream, byte)>): bytes {
    if tagged == [] then []
    else (if tagged[0].0 == stream then [tagged[0].1] else []) + Project(stream, tagged[1..])
  }

  function First<T>(s: seq<T>, n: int): seq<T> {
    if n <= 0 then [] else if n < |s| then s[..n] else s
  }

  lemma {:induction false} ProjectAppend(stream: Stream, a: seq<(Stream, byte)>, b: seq<(Stream, byte)>)
    ensures Project(stream, a + b) == Project(stream, a) + Project(stream, b)
    decreases |a|
  {
    if a == [] {
      assert a + b == b;
    } else {
      ProjectAppend(stream, a[1..], b);
      assert (a + b)[1..] == a[1..] + b && (a + b)[0] == a[0];
      var head := if a[0].0 == stream then [a[0].1] else [];
      assert head + (Project(stream, a[1..]) + Project(stream, b)) == head + Project(stream, a[1..]) + Project(stream, b);
    }
  }

  lemma TaggedTail(c: Chunk, n: nat)
    requires 0 < n <= |c.data|
    ensures Tagged(c)[..n] == [(c.stream, c.data[0])] + Tagged(Chunk(c.stream, c.data[1..]))[..n - 1]
    ensures c.data[..n] == [c.data[0]] + c.data[1..][..n - 1]
  {
  }

  lemma ProjectCons(stream: Stream, head: (Stream, byte), tail: seq<(Stream, byte)>)
    ensures Project(stream, [head] + tail) == (if head.0 == stream then [head.1] else []) + Project(stream, tail)
  {
    assert ([head] + tail)[1..] == tail;
  }

  lemma {:induction false} ProjectTagged(stream: Stream, c: Chunk, n: nat)
    requires n <= |c.data|
    ensures Project(stream, Tagged(c)[..n]) == if stream == c.stream then c.data[..n] else []
    decreases n
  {
    if n > 0 {
      var rest := Chunk(c.stream, c.data[1..]);
      TaggedTail(c, n);
      ProjectCons(stream, (c.stream, c.data[0]), Tagged(rest)[..n - 1]);
      ProjectTagged(stream, rest, n - 1);
    }
  }

  lemma {:induction false} MergeAppend(chunks: seq<Chunk>, c: Chunk)
    ensures Merge(chunks + [c]) == Merge(chunks) + Tagged(c)
    decreases |chunks|
  {
    if chunks == [] {
      assert chunks + [c] == [c] && Merge([c]) == Tagged(c) + [];
    } else {
      MergeAppend(chunks[1..], c);
      assert (chunks + [c])[1..] == chunks[1..] + [c];
    }
  }

  // --------------------------------------------------------------------- the capture

  class Capture {
    var stdout: bytes
    var stderr: bytes
    const limit: int
    var used: int
    var truncated: bool
    var cancels: nat         // how often the exec was canceled
    ghost var arrived: seq<Chunk>

    /** Whatever the interleaving was: with a cap, the buffers are the projections
        of the first `limit` bytes to arrive, no byte less is kept, and the exec was
        canceled once if more arrived, else never. Without one everything is kept. */
    ghost predicate Valid()
      reads this
    {
      var all := Merge(arrived);
      var kept := if limit > 0 then First(all, limit) else all;
      && stdout == Project(Stdout, kept)
      && stderr == Project(Stderr, kept)
      && truncated == (limit > 0 && |all| > limit)
      && cancels == (if truncated then 1 else 0)
      && (limit > 0 ==> used == |kept|)
    }

    constructor (limit: int)
      ensures Valid() && arrived == [] && this.limit == limit
    {
      this.limit := limit;
      stdout, stderr, used, truncated, cancels, arrived := [], [], 0, false, 0, [];
    }

    method Append(stream: Stream, p: bytes)
      modifies this`stdout, this`stderr
      ensures stdout == old(stdout) + if stream == Stdout then p else []
      ensures stderr == old(stderr) + if stream == Stderr then p else []
    {
      if stream == Stdout {
        stdout := stdout + p;
      } else {
        stderr := stderr + p;
      }
    }

    /** The writer is always told that all its bytes were taken. */
    method Write(stream: Stream, p: bytes) returns (n: int)
      requires Valid()
      modifies this
      ensures Valid() && arrived == old(arrived) + [Chunk(stream, p)]
      ensures n == |p|
    {
      ghost var c := Chunk(stream, p);
      ghost var all := Merge(arrived);
      MergeAppend(arrived, c);
      if limit <= 0 || truncated {
        if !truncated {
          Append(stream, p);
          KeepAll(all, c);
        } else {
          assert First(all + Tagged(c), limit) == First(all, limit);
        }
        arrived := arrived + [c];
        return |p|;
      }
      var room := limit - used;
      if room < 0 {
        room := 0;
      }
      KeepFirst(all, c, limit);
      if |p| > room {
        if room > 0 {
          Append(stream, p[..room]);
          used := used + room;
        }
        truncated := true;
        cancels := cancels + 1;
        arrived := arrived + [c];
        return |p|;
      }
      Append(stream, p);
      used := used + |p|;
      arrived := arrived + [c];
      return |p|;
    }

    /** A cut keeps what was stored whatever the exec reports; an error without a
        cut drops it. */
    method Finish(err: Option<int>) returns (out: bytes, errOut: bytes, e: Option<int>)
      requires Valid()
      modifies this`stdout, this`stderr
      ensures var kept := First(Merge(arrived), limit);
        limit > 0 && |Merge(arrived)| > limit ==>
          && e.None?
          && out == Project(Stdout, kept) + (if Project(Stdout, kept) != [] then EXEC_NOTICE else [])
          && errOut == Project(Stderr, kept) + (if Project(Stdout, kept) != [] then [] else EXEC_NOTICE)
      ensures limit <= 0 || |Merge(arrived)| <= limit ==>
        if err.Some? then (out, errOut, e) == ([], [], err)
        else (out, errOut, e) == (Project(Stdout, Merge(arrived)), Project(Stderr, Merge(arrived)), None)
    {
      if truncated {
        if |stdout| > 0 {
          Append(Stdout, EXEC_NOTICE);
        } else {
          Append(Stderr, EXEC_NOTICE);
        }
        return stdout, stderr, None;
      }
      if err.Some? {
        return [], [], err;
      }
      return stdout, stderr, None;
    }
  }

  lemma KeepAll(all: seq<(Stream, byte)>, c: Chunk)
    ensures forall s :: Project(s, all + Tagged(c)) == Project(s, all) + if s == c.stream then c.data else []
  {
    assert Tagged(c)[..|c.data|] == Tagged(c) && c.data[..|c.data|] == c.data;
    forall s ensures Project(s, all + Tagged(c)) == Project(s, all) + if s == c.stream then c.data else [] {
      ProjectAppend(s, all, Tagged(c));
      ProjectTagged(s, c, |c.data|);
    }
  }

  /** The first `limit` bytes grow by as much of the chunk as still fits. */
  lemma KeepFirst(all: seq<(Stream, byte)>, c: Chunk, limit: int)
    requires |all| <= limit && limit > 0
    ensures var room := limit - |all|;
      var taken := if |c.data| > room then c.data[..room] else c.data;
      && |First(all + Tagged(c), limit)| == |all| + |taken|
      && First(all, limit) == all
      && forall s :: Project(s, First(all + Tagged(c), limit)) == Project(s, all) + if s == c.stream then taken else []
  {
    var room := limit - |all|;
    var n := if |c.data| > room then room else |c.data|;
    assert First(all + Tagged(c), limit) == all + Tagged(c)[..n];
    assert c.data[..|c.data|] == c.data;
    forall s ensures Project(s, all + Tagged(c)[..n]) == Project(s, all) + if s == c.stream then c.data[..n] else [] {
      ProjectAppend(s, all, Tagged(c)[..n]);
      ProjectTagged(s, c, n);
    }
  }

  /** Any interleaving of the two streams, written and finished. */
  method Exec(limit: int, chunks: seq<Chunk>, err: Option<int>)
    returns (out: bytes, errOut: bytes, e: Option<int>, canceled: nat)
    ensures canceled == if limit > 0 && |Merge(chunks)| > limit then 1 else 0
    ensures canceled == 0 && err.None? ==>
      e.None? && out == Project(Stdout, Merge(chunks)) && errOut == Project(Stderr, Merge(chunks))
    ensures canceled == 1 ==>
      && e.None?
      && |out| + |errOut| == limit + |EXEC_NOTICE|
      && var first, errFirst := Project(Stdout, Merge(chunks)[..limit]), Project(Stderr, Merge(chunks)[..limit]);
         var notice := Ascii("\n[truncated: max_backend_response_bytes]\n");
         if first != [] then out == first + notice && errOut == errFirst
         else out == [] && errOut == errFirst + notice
    ensures canceled == 0 && err.Some? ==> e == err && out == errOut == []
  {
    var capture := new Capture(limit);
    for i := 0 to |chunks|
      invariant capture.Valid() && capture.limit == limit && capture.arrived == chunks[..i]
    {
      var _ := capture.Write(chunks[i].stream, chunks[i].data);
      assert chunks[..i + 1] == chunks[..i] + [chunks[i]];
    }
    assert chunks[..|chunks|] == chunks;
    canceled := capture.cancels;
    if capture.truncated {
      ProjectionsPartition(First(Merge(chunks), limit));
    }
    out, errOut, e := capture.Finish(err);
  }

  /** Each kept byte is in exactly one of the two streams. */
  lemma {:induction false} ProjectionsPartition(tagged: seq<(Stream, byte)>)
    ensures |Project(Stdout, tagged)| + |Project(Stderr, tagged)| == |tagged|
    decreases |tagged|
  {
    if tagged != [] {
      ProjectionsPartition(tagged[1..]);
    }
  }
}

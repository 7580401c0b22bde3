/** A bounded head and tail of an unlimited byte stream (common/capture.go). */
module Capture {
  import opened Wrappers

  datatype Mode = HeadTail | HeadOnly | TailOnly

  function HeadLimit(limit: nat, mode: Mode): nat {
    match mode case HeadTail => (limit + 1) / 2 case HeadOnly => limit case TailOnly => 0
  }

  function TailLimit(limit: nat, mode: Mode): nat {
    match mode case HeadTail => limit / 2 case HeadOnly => 0 case TailOnly => limit
  }

  /** The first h bytes of the stream. */
  function Front<T>(stream: seq<T>, h: nat): seq<T> {
    if |stream| <= h then stream else stream[..h]
  }

  /** The last t bytes of the stream. */
  function Back<T>(stream: seq<T>, t: nat): seq<T> {
    if |stream| <= t then stream else stream[|stream| - t..]
  }

  function Rest<T>(stream: seq<T>, h: nat): seq<T> {
    if |stream| <= h then [] else stream[h..]
  }

  /** What one write does to a head of at most h bytes and a tail of at most t. */
  function HeadAfter<T>(head: seq<T>, p: seq<T>, h: nat): seq<T> {
    head + Front(p, if |head| < h then h - |head| else 0)
  }

  function Beyond<T>(head: seq<T>, p: seq<T>, h: nat): seq<T> {
    Rest(p, if |head| < h then h - |head| else 0)
  }

  lemma FrontOfMore<T>(stream: seq<T>, p: seq<T>, h: nat)
    ensures HeadAfter(Front(stream, h), p, h) == Front(stream + p, h)
    ensures Rest(stream + p, h) == Rest(stream, h) + Beyond(Front(stream, h), p, h)
  {
  }

  /** Cutting to the last t bytes can be done before or after more bytes arrive. */
  lemma BackOfMore<T>(rest: seq<T>, p: seq<T>, t: nat)
    ensures Back(Back(rest, t) + p, t) == Back(rest + p, t)
  {
  }

  /** What is kept of the head and of the tail of a stream. */
  function Kept<T>(stream: seq<T>, limit: nat, mode: Mode): (seq<T>, seq<T>) {
    var h, t := HeadLimit(limit, mode), TailLimit(limit, mode);
    (Front(stream, h), Back(Rest(stream, h), t))
  }

  /** Each mode on a stream that does not fit keeps the first bytes, the last bytes, or both in halves, the first of
      which takes the odd byte. */
  lemma ModesKeep<T>(stream: seq<T>, limit: nat)
    requires |stream| > limit
    ensures var (head, tail) := Kept(stream, limit, HeadOnly); head == stream[..limit] && tail == []
    ensures var (head, tail) := Kept(stream, limit, TailOnly); head == [] && tail == stream[|stream| - limit..]
    ensures var (head, tail) := Kept(stream, limit, HeadTail);
            && |head| + |tail| == limit && |tail| <= |head| <= |tail| + 1
            && head == stream[..|head|] && tail == stream[|stream| - |tail|..]
  {
    var h := (limit + 1) / 2;
    assert Rest(stream, 0) == stream && h + limit / 2 == limit;
  }

  /** The captured parts hold the whole stream when it fits, and exactly `limit` bytes of it when it does not. */
  lemma Retained<T>(stream: seq<T>, limit: nat, mode: Mode)
    ensures var (head, tail) := Kept(stream, limit, mode);
            && (|stream| <= limit ==> head + tail == stream)
            && (|stream| > limit ==> |head| + |tail| == limit)
            && head <= stream && |tail| <= |stream| && stream[|stream| - |tail|..] == tail
  {
    match mode
    case HeadTail =>
    case HeadOnly =>
    case TailOnly =>
  }

  /** The head takes what it lacks from the front of `p`. */
  method FillHead(head: seq<byte>, p: seq<byte>, headLimit: nat) returns (more: seq<byte>, rest: seq<byte>)
    ensures more == HeadAfter(head, p, headLimit) && rest == Beyond(head, p, headLimit)
  {
    more, rest := head, p;
    if |head| < headLimit {
      var k := headLimit - |head|;
      if k > |p| {
        k := |p|;
      }
      more := head + p[..k];
      rest := p[k..];
    }
  }

  method PushTail(tail: seq<byte>, rest: seq<byte>, tailLimit: nat) returns (last: seq<byte>)
    requires |tail| <= tailLimit
    ensures last == Back(tail + rest, tailLimit)
  {
    last := tail;
    if tailLimit > 0 && |rest| > 0 {
      last := last + rest;
      if |last| > tailLimit {
        last := last[|last| - tailLimit..];
      }
    }
  }

  class BoundedCapture {
    const limit: nat
    const mode: Mode
    var total: nat
    var head: seq<byte>
    var tail: seq<byte>
    /** Everything written so far. */
    ghost var stream: seq<byte>

    ghost predicate Valid()
      reads this
    {
      && total == |stream|
      && head == Front(stream, HeadLimit(limit, mode))
      && tail == Back(Rest(stream, HeadLimit(limit, mode)), TailLimit(limit, mode))
    }

    constructor (limit: int, mode: Mode)
      ensures Valid() && stream == [] && this.mode == mode && this.limit == (if limit < 0 then 0 else limit)
    {
      this.limit := if limit < 0 then 0 else limit;
      this.mode := mode;
      total, head, tail, stream := 0, [], [], [];
    }

    method Write(p: seq<byte>) returns (n: nat)
      requires Valid()
      modifies this
      ensures Valid() && stream == old(stream) + p && n == |p|
    {
      n := |p|;
      total := total + n;
      if limit == 0 {
        stream := stream + p;
        return;
      }
      var headLimit, tailLimit := (limit + 1) / 2, limit / 2;
      if mode == HeadOnly {
        headLimit, tailLimit := limit, 0;
      } else if mode == TailOnly {
        headLimit, tailLimit := 0, limit;
      }
      FrontOfMore(stream, p, headLimit);
      BackOfMore(Rest(stream, headLimit), Beyond(head, p, headLimit), tailLimit);
      stream := stream + p;
      var more, rest := FillHead(head, p, headLimit);
      var last := PushTail(tail, rest, tailLimit);
      head, tail := more, last;
    }

    /** Whatever the split into writes, only their concatenation matters. */
    method WriteAll(chunks: seq<seq<byte>>)
      requires Valid()
      modifies this
      ensures Valid() && stream == old(stream) + Joined(chunks, |chunks|)
    {
      for k := 0 to |chunks|
        invariant Valid() && stream == old(stream) + Joined(chunks, k)
      {
        var _ := Write(chunks[k]);
      }
    }

    method Result() returns (front: seq<byte>, back: seq<byte>, totalBytes: nat, truncated: bool)
      requires Valid()
      ensures totalBytes == |stream| && truncated == (|stream| > limit)
      ensures front == head && back == tail && front == Kept(stream, limit, mode).0
      ensures back == Kept(stream, limit, mode).1
      ensures !truncated ==> front + back == stream
      ensures truncated ==> |front| + |back| == limit && front <= stream && stream[|stream| - |back|..] == back
    {
      Retained(stream, limit, mode);
      return head, tail, total, total > limit;
    }
  }

  ghost function Joined(chunks: seq<seq<byte>>, k: nat): seq<byte>
    requires k <= |chunks|
  {
    if k == 0 then [] else Joined(chunks, k - 1) + chunks[k - 1]
  }
}

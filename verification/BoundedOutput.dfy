/** The sink that keeps the tail of the webview's output as a deque of chunks. */
module BoundedOutput {

  /** The last n characters of a log, all of it if shorter. */
  function Tail(s: string, n: nat): (r: string)
    ensures |r| == if |s| < n then |s| else n
  {
    if |s| <= n then s else s[|s| - n..]
  }

  /** Python's s[-n:]: a zero n keeps everything. */
  function LastSlice(s: string, n: nat): string {
    if n == 0 then s else Tail(s, n)
  }

  function Joined(chunks: seq<string>): string {
    if chunks == [] then "" else chunks[0] + Joined(chunks[1..])
  }

  lemma {:induction false} JoinedAppend(chunks: seq<string>, chunk: string)
    ensures Joined(chunks + [chunk]) == Joined(chunks) + chunk
  {
    if chunks == [] {
      assert [chunk][1..] == [];
    } else {
      assert (chunks + [chunk])[1..] == chunks[1..] + [chunk];
      JoinedAppend(chunks[1..], chunk);
    }
  }

  lemma TailOfAppend(a: string, b: string, log: string, n: nat)
    requires Tail(a, n) == Tail(log, n)
    ensures Tail(a + b, n) == Tail(log + b, n)
  {
    if |a| < n {
      assert a == log;
    } else {
      assert |log| >= n;
      assert Tail(a + b, n) == Tail(Tail(a, n) + b, n);
      assert Tail(log + b, n) == Tail(Tail(log, n) + b, n);
    }
  }

  lemma TailOfTail(a: string, b: string, n: nat)
    ensures Tail(a + Tail(b, n), n) == Tail(a + b, n)
  {
  }

  lemma TailWithoutFront(front: string, rest: string, n: nat)
    requires |rest| >= n
    ensures Tail(front + rest, n) == Tail(rest, n)
  {
  }

  class BoundedWebviewOutput {
    const maxlen: nat
    var chunks: seq<string>
    var size: nat
    ghost var log: string  // everything written

    ghost predicate Valid()
      reads this
    {
      && size == |Joined(chunks)|
      && Tail(Joined(chunks), maxlen) == Tail(log, maxlen)
      && (forall c :: c in chunks ==> |c| <= maxlen)
      && (chunks != [] ==> size - |chunks[0]| < maxlen)
    }

    constructor (maxlen: nat)
      ensures Valid() && this.maxlen == maxlen && log == ""
    {
      this.maxlen, chunks, size, log := maxlen, [], 0, "";
    }

    /** Retention stays under twice the window, and never falls short of it. */
    lemma Retained()
      requires Valid()
      ensures maxlen > 0 ==> size < 2 * maxlen
      ensures size >= if |log| < maxlen then |log| else maxlen
    {
      if chunks != [] {
        assert chunks[0] in chunks;
      }
    }

    method DropFront()
      requires chunks != [] && size == |Joined(chunks)| && size - |chunks[0]| >= maxlen
      requires Tail(Joined(chunks), maxlen) == Tail(log, maxlen)
      modifies this`chunks, this`size
      ensures chunks == old(chunks)[1..]
      ensures size == |Joined(chunks)| && Tail(Joined(chunks), maxlen) == Tail(log, maxlen)
    {
      TailWithoutFront(chunks[0], Joined(chunks[1..]), maxlen);
      size := size - |chunks[0]|;
      chunks := chunks[1..];
    }

    method Write(chunk: string)
      requires Valid()
      modifies this
      ensures Valid() && log == old(log) + chunk
    {
      var kept := if |chunk| > maxlen then LastSlice(chunk, maxlen) else chunk;
      ghost var before := log;
      log := log + chunk;
      JoinedAppend(chunks, kept);
      TailOfAppend(Joined(chunks), kept, before, maxlen);
      TailOfTail(before, chunk, maxlen);
      chunks := chunks + [kept];
      size := size + |kept|;
      while chunks != [] && size - |chunks[0]| >= maxlen
        invariant size == |Joined(chunks)|
        invariant Tail(Joined(chunks), maxlen) == Tail(log, maxlen)
        invariant maxlen > 0 ==> forall c :: c in chunks ==> |c| <= maxlen
        invariant log == before + chunk
        decreases |chunks|
      {
        DropFront();
      }
    }

    /** The text is the last maxlen characters of everything written. */
    method Text() returns (text: string)
      requires Valid()
      ensures text == Tail(log, maxlen)
    {
      text := LastSlice(Joined(chunks), maxlen);
    }
  }

  /** From an empty sink, after any writes. */
  method WriteAll(maxlen: nat, writes: seq<string>) returns (text: string)
    ensures text == Tail(Joined(writes), maxlen)
  {
    var out := new BoundedWebviewOutput(maxlen);
    for k := 0 to |writes|
      invariant out.Valid() && out.maxlen == maxlen && out.log == Joined(writes[..k])
    {
      out.Write(writes[k]);
      assert writes[..k + 1] == writes[..k] + [writes[k]];
      JoinedAppend(writes[..k], writes[k]);
    }
    assert writes[..|writes|] == writes;
    text := out.Text();
  }
}

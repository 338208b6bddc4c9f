// bigEndianPostings of pkg/inverted/index/postings.go: postings over a stream of four-byte numbers.

module BigEndian {
  import opened IteratorViews

  type byte = b: int | 0 <= b < 256

  const TWO_TO_32: nat := 0x1_0000_0000

  /** binary.BigEndian.Uint32 at the front of the stream. */
  function Uint32(s: seq<byte>): (n: nat)
    requires |s| >= 4
    ensures n < TWO_TO_32
  {
    ((s[0] as int * 256 + s[1] as int) * 256 + s[2] as int) * 256 + s[3] as int
  }

  function Bytes(n: nat): (s: seq<byte>)
    requires n < TWO_TO_32
    ensures |s| == 4
  {
    [n / 0x100_0000, n / 0x1_0000 % 256, n / 0x100 % 256, n % 256]
  }

  function Encode(ids: seq<nat>): seq<byte>
    requires forall i :: 0 <= i < |ids| ==> ids[i] < TWO_TO_32
  {
    if ids == [] then [] else Bytes(ids[0]) + Encode(ids[1..])
  }

  /** The numbers in the stream; fewer than four bytes at the end are no number. */
  function Decode(s: seq<byte>): seq<nat> {
    if |s| < 4 then [] else [Uint32(s)] + Decode(s[4..])
  }

  /** The first byte counts most: numbers compare as their bytes from the first to the last. */
  lemma BytesOrder(s: seq<byte>, t: seq<byte>, k: nat)
    requires |s| >= 4 && |t| >= 4 && k < 4 && (forall i :: 0 <= i < k ==> s[i] == t[i]) && s[k] < t[k]
    ensures Uint32(s) < Uint32(t)
  {
    var i, j := s[0] as int * 256 + s[1] as int, t[0] as int * 256 + t[1] as int;
    assert Uint32(s) == (i * 256 + s[2] as int) * 256 + s[3] as int;
    assert Uint32(t) == (j * 256 + t[2] as int) * 256 + t[3] as int;
  }

  lemma BytesBack(n: nat, rest: seq<byte>)
    requires n < TWO_TO_32
    ensures Uint32(Bytes(n) + rest) == n
  {
    var a, b := n / 0x100, n / 0x1_0000;
    assert n == a * 256 + n % 256 && a == b * 256 + a % 256 && b == b / 256 * 256 + b % 256;
    assert n / 0x100_0000 == b / 256;
  }

  lemma {:induction false} DecodeEncode(ids: seq<nat>)
    requires forall i :: 0 <= i < |ids| ==> ids[i] < TWO_TO_32
    ensures Decode(Encode(ids)) == ids
  {
    if ids != [] {
      var rest := Encode(ids[1..]);
      DecodeEncode(ids[1..]);
      BytesBack(ids[0], rest);
      assert (Bytes(ids[0]) + rest)[4..] == rest;
    }
  }

  lemma {:induction false} DecodeAt(s: seq<byte>, i: nat)
    requires i <= |s| / 4
    ensures |Decode(s)| == |s| / 4 && Decode(s[4 * i..]) == Decode(s)[i..]
    ensures i < |s| / 4 ==> Decode(s)[i] == Uint32(s[4 * i..])
  {
    if |s| >= 4 {
      if i > 0 {
        DecodeAt(s[4..], i - 1);
        assert s[4..][4 * (i - 1)..] == s[4 * i..];
      } else {
        DecodeAt(s[4..], 0);
        assert s[0..] == s;
      }
    }
  }

  lemma DecodeJump(s: seq<byte>, i: nat)
    requires i < |s| / 4
    ensures i < |Decode(s)| && Uint32(s[i * 4..]) == Decode(s)[i] && Decode(s[i * 4 + 4..]) == Decode(s)[i + 1..]
  {
    DecodeAt(s, i);
    DecodeAt(s, i + 1);
  }

  /** The fields of a bigEndianPostings, the stream read as numbers. */
  function BigStep(c: Cursor, call: Call): (bool, Cursor) {
    match call
    case CallNext => if c.list == [] then (false, c) else (true, Cursor(c.list[0], c.list[1..]))
    case CallSeek(x) =>
      if x <= c.cur then (true, c) else Landing(c, Skipped(c.list, x % TWO_TO_32))
  }

  /** Where Seek lands in the stream: behind the number found, or at the end. */
  lemma SeekLands(s: seq<byte>, cur: nat, i: nat)
    requires i <= |Decode(s)|
    ensures |Decode(s)| == |s| / 4
    ensures Landing(Cursor(cur, Decode(s)), i) ==
              if i < |s| / 4 then (true, Cursor(Uint32(s[i * 4..]), Decode(s[i * 4 + 4..]))) else (false, Cursor(cur, Decode([])))
  {
    DecodeAt(s, 0);
    if i < |s| / 4 {
      DecodeJump(s, i);
    }
  }

  class BigEndianPostings {
    var list: seq<byte>
    var cur: nat

    constructor (list: seq<byte>)
      ensures this.list == list && Reads() == Cursor(0, Decode(list))
    {
      this.list, cur := list, 0;
    }

    ghost function Reads(): Cursor
      reads this
    {
      Cursor(cur, Decode(list))
    }

    method At() returns (id: nat)
      ensures id == Reads().cur
    {
      id := cur;
    }

    method Next() returns (ok: bool)
      modifies this
      ensures (ok, Reads()) == BigStep(old(Reads()), CallNext)
    {
      if |list| >= 4 {
        cur := Uint32(list);
        list := list[4..];
        return true;
      }
      return false;
    }

    method Seek(x: nat) returns (ok: bool)
      requires Sorted(Reads().list)
      modifies this
      ensures (ok, Reads()) == BigStep(old(Reads()), CallSeek(x))
    {
      if cur >= x {
        return true;
      }
      var num := |list| / 4;
      var i := Search(num, x % TWO_TO_32);
      SeekLands(list, cur, i);
      if i < num {
        var j := i * 4;
        cur := Uint32(list[j..]);
        list := list[j + 4..];
        return true;
      }
      list := [];
      return false;
    }

    /** sort.Search over the numbers of the stream. */
    method Search(num: nat, x: nat) returns (i: nat)
      requires num == |list| / 4 && Sorted(Reads().list)
      ensures i == Skipped(Reads().list, x)
    {
      ghost var ids := Reads().list;
      DecodeAt(list, 0);
      i := 0;
      var j := num;
      while i < j
        invariant i <= j <= num == |ids|
        invariant forall k :: 0 <= k < i ==> ids[k] < x
        invariant forall k :: j <= k < |ids| ==> x <= ids[k]
      {
        var m := (i + j) / 2;
        DecodeAt(list, m);
        if Uint32(list[m * 4..]) >= x {
          j := m;
        } else {
          i := m + 1;
        }
      }
      SkippedIs(ids, x, i);
    }
  }

  /** As AnswersList, for the stream. */
  function AnswersBig(c: Cursor, calls: seq<Call>): seq<Answer>
    decreases |calls|
  {
    if calls == [] then [] else
      var (ok, d) := BigStep(c, calls[0]);
      if ok then [At(d.cur)] + AnswersBig(d, calls[1..]) else [No]
  }

  /** Seeking to a target that four bytes can hold. */
  predicate Narrow(call: Call) {
    call.CallSeek? ==> call.x < TWO_TO_32
  }

  lemma StepAgrees(c: Cursor, call: Call)
    requires Narrow(call)
    ensures BigStep(c, call).0 == ListStep(c, call).0
    ensures ListStep(c, call).0 ==> BigStep(c, call) == ListStep(c, call)
  {
  }

  lemma {:induction false} StepsAgree(c: Cursor, calls: seq<Call>)
    requires forall i :: 0 <= i < |calls| ==> Narrow(calls[i])
    ensures AnswersBig(c, calls) == AnswersList(c, calls)
    decreases |calls|
  {
    if calls != [] {
      StepAgrees(c, calls[0]);
      var r := ListStep(c, calls[0]);
      if r.0 {
        assert forall i :: 0 <= i < |calls[1..]| ==> calls[1..][i] == calls[i + 1];
        StepsAgree(r.1, calls[1..]);
      }
    }
  }

  /** Over the encoding of a list the two give the same answers up to the first false. */
  lemma RunsAgree(ids: seq<nat>, calls: seq<Call>)
    requires forall i :: 0 <= i < |ids| ==> ids[i] < TWO_TO_32
    requires forall i :: 0 <= i < |calls| ==> Narrow(calls[i])
    ensures AnswersBig(Cursor(0, Decode(Encode(ids))), calls) == AnswersList(Cursor(0, ids), calls)
  {
    DecodeEncode(ids);
    StepsAgree(Cursor(0, ids), calls);
  }

  /** A wider target is cut to 32 bits: the answers differ iff an id at or above the remainder is left. */
  lemma WideSeek(c: Cursor, x: nat)
    requires c.cur < TWO_TO_32 && forall i :: 0 <= i < |c.list| ==> c.list[i] < TWO_TO_32
    ensures BigStep(c, CallSeek(x)).0 == ListStep(c, CallSeek(x)).0 <==>
            x < TWO_TO_32 || forall i :: 0 <= i < |c.list| ==> c.list[i] < x % TWO_TO_32
  {
    if x >= TWO_TO_32 {
      SkippedIs(c.list, x, |c.list|);
      var i := Skipped(c.list, x % TWO_TO_32);
      if i < |c.list| {
        assert x % TWO_TO_32 <= c.list[i];
      }
    }
  }
}

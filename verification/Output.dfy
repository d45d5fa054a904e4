/** A caller-sized output buffer that is filled from the front and never truncates. */
module Output {
  import opened Sequences

  class Writer {
    const out: array<char>
    var len: nat

    ghost predicate Valid()
      reads this
    {
      len <= out.Length
    }

    ghost function Written(): string
      reads this, out
      requires Valid()
    {
      out[..len]
    }

    constructor (out: array<char>)
      ensures Valid() && this.out == out && len == 0
    {
      this.out := out;
      len := 0;
    }

    /** Appends all of `s`, or nothing. */
    method Put(s: string) returns (ok: bool)
      requires Valid()
      modifies this, out
      ensures Valid()
      ensures ok <==> |old(Written())| + |s| <= out.Length
      ensures Written() == if ok then old(Written()) + s else old(Written())
    {
      if len + |s| > out.Length { return false; }
      ghost var was := out[..len];
      var i := 0;
      while i < |s|
        invariant i <= |s| && out[..len + i] == was + s[..i]
        invariant len == old(len)
        modifies out
      {
        out[len + i] := s[i];
        assert out[..len + i + 1] == out[..len + i] + [s[i]];
        i := i + 1;
      }
      len := len + |s|;
      return true;
    }

    /** Appends the pieces in order and stops at the first that does not fit. */
    method PutAll(pieces: seq<string>) returns (ok: bool)
      requires Valid()
      modifies this, out
      ensures Valid()
      ensures ok <==> |old(Written())| + |Concat(pieces)| <= out.Length
      ensures ok ==> Written() == old(Written()) + Concat(pieces)
    {
      ghost var was := Written();
      var i := 0;
      while i < |pieces|
        invariant i <= |pieces| && Valid()
        invariant Written() + Concat(pieces[i..]) == was + Concat(pieces)
      {
        ghost var now := Written();
        Regroup(now, pieces[i], Concat(pieces[i + 1..]));
        assert pieces[i..][1..] == pieces[i + 1..];
        var fits := Put(pieces[i]);
        if !fits {
          assert |now| + |Concat(pieces[i..])| == |was| + |Concat(pieces)|;
          return false;
        }
        i := i + 1;
      }
      return true;
    }
  }

  function Concat(pieces: seq<string>): string {
    if pieces == [] then "" else pieces[0] + Concat(pieces[1..])
  }

  lemma ConcatCons(a: string, more: seq<string>)
    ensures Concat([a] + more) == a + Concat(more)
  {
    assert ([a] + more)[1..] == more;
  }

  lemma ConcatOfFour(a: string, b: string, c: string, d: string)
    ensures Concat([a, b, c, d]) == a + (b + (c + (d + "")))
  {
    ConcatCons(d, []);
    ConcatCons(c, [d]);
    ConcatCons(b, [c, d]);
    ConcatCons(a, [b, c, d]);
    assert [a] + [b, c, d] == [a, b, c, d] && [b] + [c, d] == [b, c, d] && [c] + [d] == [c, d] && [d] + [] == [d];
  }

  lemma ConcatOfFive(a: string, b: string, c: string, d: string, e: string)
    ensures Concat([a, b, c, d, e]) == a + (b + (c + (d + (e + ""))))
  {
    ConcatOfFour(b, c, d, e);
    ConcatCons(a, [b, c, d, e]);
    assert [a] + [b, c, d, e] == [a, b, c, d, e];
  }
}

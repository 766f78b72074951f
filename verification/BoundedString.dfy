/** Bounded copy and append of C strings (STUFF/mystring.c, STRLCPY and STRLCAT), on buffers that are written in
    place. */
module BoundedString {

  const NUL: char := '\0'

  /** The length of the string in a buffer: the place of its first NUL, or the size of the buffer if it has none. */
  function Strlen(s: seq<char>): (n: nat)
    ensures n <= |s| && (forall k :: 0 <= k < n ==> s[k] != NUL) && (n < |s| ==> s[n] == NUL)
  {
    if s == [] || s[0] == NUL then 0
    else
      var n := Strlen(s[1..]);
      assert forall k :: 1 <= k < n + 1 ==> s[k] == s[1..][k - 1];
      1 + n
  }

  function Text(s: seq<char>): seq<char> {
    s[..Strlen(s)]
  }

  ghost predicate IsString(s: seq<char>) {
    Strlen(s) < |s|
  }

  function Clip(text: seq<char>, n: nat): (t: seq<char>)
    ensures |t| <= n
  {
    if |text| <= n then text else text[..n]
  }

  /** The buffer with `text` and a NUL written from position `at` on. */
  function Overlay(buffer: seq<char>, at: nat, text: seq<char>): (r: seq<char>)
    requires at + |text| < |buffer|
    ensures |r| == |buffer|
  {
    seq(|buffer|, k requires 0 <= k < |buffer| =>
      if k < at || k > at + |text| then buffer[k] else if k == at + |text| then NUL else text[k - at])
  }

  /** What a buffer of which `size` bytes may be used holds after `text` was copied into it. */
  function Copied(buffer: seq<char>, text: seq<char>, size: nat): (r: seq<char>)
    requires size <= |buffer|
    ensures |r| == |buffer|
  {
    if size == 0 then buffer else Overlay(buffer, 0, Clip(text, size - 1))
  }

  /** And after it was appended; a buffer without a NUL in its first `size` bytes stays as it is. */
  function Appended(buffer: seq<char>, text: seq<char>, size: nat): (r: seq<char>)
    requires size <= |buffer|
    ensures |r| == |buffer|
  {
    var n := Strlen(buffer[..size]);
    if n == size then buffer else Overlay(buffer, n, Clip(text, size - n - 1))
  }

  lemma StrlenIs(s: seq<char>, n: nat)
    requires n < |s| && s[n] == NUL && forall k :: 0 <= k < n ==> s[k] != NUL
    ensures Strlen(s) == n
  {
  }

  ghost predicate NoNul(text: seq<char>) {
    forall k :: 0 <= k < |text| ==> text[k] != NUL
  }

  /** The copy is the whole text exactly when the length that is returned is less than the size. */
  lemma TruncationIsReported(buffer: seq<char>, text: seq<char>, size: nat)
    requires 0 < size <= |buffer| && NoNul(text)
    ensures IsString(Copied(buffer, text, size)[..size])
    ensures Text(Copied(buffer, text, size)) == Clip(text, size - 1)
    ensures Text(Copied(buffer, text, size)) == text <==> |text| < size
  {
    var clip, r := Clip(text, size - 1), Copied(buffer, text, size);
    StrlenIs(r, |clip|);
    StrlenIs(r[..size], |clip|);
  }

  /** The text of what was appended to, and what fits of the rest behind it. */
  lemma AppendedText(buffer: seq<char>, text: seq<char>, size: nat)
    requires size <= |buffer| && IsString(buffer[..size]) && NoNul(text)
    ensures IsString(Appended(buffer, text, size)[..size])
    ensures Text(Appended(buffer, text, size))
         == Text(buffer[..size]) + Clip(text, size - 1 - |Text(buffer[..size])|)
    ensures |Text(Appended(buffer, text, size))| == |Text(buffer[..size])| + |text|
            <==> |Text(buffer[..size])| + |text| < size
  {
    var n := Strlen(buffer[..size]);
    var more, r := Clip(text, size - n - 1), Appended(buffer, text, size);
    assert forall k :: 0 <= k < n ==> r[k] == buffer[..size][k];
    StrlenIs(r, n + |more|);
    StrlenIs(r[..size], n + |more|);
  }

  /** Nothing else is touched: neither the bytes behind the NUL of the copy nor those beyond the size. */
  lemma CopyLeavesRest(buffer: seq<char>, text: seq<char>, size: nat, k: nat)
    requires size <= |buffer| && NoNul(text) && k < |buffer|
    requires k >= size || k > |Text(Copied(buffer, text, size))|
    ensures Copied(buffer, text, size)[k] == buffer[k]
  {
    if size > 0 {
      TruncationIsReported(buffer, text, size);
    }
  }

  /** Nor does an append, which also leaves the text that was there. */
  lemma AppendLeavesRest(buffer: seq<char>, text: seq<char>, size: nat, k: nat)
    requires size <= |buffer| && NoNul(text) && k < |buffer|
    requires k >= size || k < Strlen(buffer[..size]) || k > |Text(Appended(buffer, text, size))|
    ensures Appended(buffer, text, size)[k] == buffer[k]
  {
    if IsString(buffer[..size]) {
      AppendedText(buffer, text, size);
    }
  }

  lemma OverlayTwice(buffer: seq<char>, a: seq<char>, b: seq<char>)
    requires |a| + |b| < |buffer|
    ensures Overlay(Overlay(buffer, 0, a), |a|, b) == Overlay(buffer, 0, a + b)
  {
  }

  /** Copying one string and appending another is copying their concatenation. */
  lemma CopyThenAppend(buffer: seq<char>, a: seq<char>, b: seq<char>, size: nat)
    requires 0 < size <= |buffer| && NoNul(a)
    ensures Appended(Copied(buffer, a, size), b, size) == Copied(buffer, a + b, size)
  {
    var once, clip := Copied(buffer, a, size), Clip(a, size - 1);
    StrlenIs(once[..size], |clip|);
    var more := Clip(b, size - |clip| - 1);
    OverlayTwice(buffer, clip, more);
    assert clip + more == Clip(a + b, size - 1);
  }

  // ----- The pointer loops -----

  /** The rest of a string is walked over. */
  method SkipToEnd(src: array<char>, s0: nat) returns (s: nat)
    requires IsString(src[..]) && s0 <= Strlen(src[..])
    ensures s == Strlen(src[..])
  {
    s := s0;
    while src[s] != NUL
      invariant s <= Strlen(src[..])
      decreases src.Length - s
    {
      s := s + 1;
    }
  }

  /** STRLCPY */
  method Strlcpy(dst: array<char>, src: array<char>, dsize: nat) returns (n: nat)
    requires dst != src && dsize <= dst.Length && IsString(src[..])
    modifies dst
    ensures dst[..] == Copied(old(dst[..]), Text(src[..]), dsize)
    ensures n == Strlen(src[..])
  {
    ghost var text := Text(src[..]);
    var d, s := 0, 0;
    var nleft := dsize;
    if nleft != 0 {
      nleft := nleft - 1;
      while nleft != 0
        invariant d == s == dsize - 1 - nleft && s <= |text|
        invariant forall k :: 0 <= k < dst.Length ==> dst[k] == if k < s then text[k] else old(dst[k])
      {
        dst[d] := src[s];
        d, s := d + 1, s + 1;
        if src[s - 1] == NUL {
          break;
        }
        nleft := nleft - 1;
      }
    }
    if nleft == 0 {
      if dsize != 0 {
        dst[d] := NUL;
      }
      s := SkipToEnd(src, s);
      s := s + 1;
    }
    n := s - 1;
  }

  /** The first loop of STRLCAT: the end of dst, not looking beyond its size. */
  method FindEnd(dst: array<char>, dsize: nat) returns (d: nat)
    requires dsize <= dst.Length
    ensures d == Strlen(dst[..dsize])
  {
    d := 0;
    while d != dsize && dst[d] != NUL
      invariant d <= Strlen(dst[..dsize])
    {
      d := d + 1;
    }
  }

  /** The second one: append what fits, and walk over the rest of src. */
  method AppendText(dst: array<char>, src: array<char>, dlen: nat, room: nat) returns (d: nat, s: nat)
    requires dst != src && dlen + room < dst.Length && IsString(src[..])
    modifies dst
    ensures s == Strlen(src[..]) && d == dlen + |Clip(Text(src[..]), room)|
    ensures forall k :: 0 <= k < dst.Length ==> dst[k] == if dlen <= k < d then Text(src[..])[k - dlen] else old(dst[k])
  {
    ghost var text := Text(src[..]);
    var n := room;
    d, s := dlen, 0;
    while src[s] != NUL
      invariant s <= |text| && n == dlen + room - d && d == dlen + if s < room then s else room
      invariant forall k :: 0 <= k < dst.Length ==> dst[k] == if dlen <= k < d then text[k - dlen] else old(dst[k])
      decreases src.Length - s
    {
      if n != 0 {
        dst[d] := src[s];
        d, n := d + 1, n - 1;
      }
      s := s + 1;
    }
  }

  /** STRLCAT */
  method Strlcat(dst: array<char>, src: array<char>, dsize: nat) returns (n: nat)
    requires dst != src && dsize <= dst.Length && IsString(src[..])
    modifies dst
    ensures dst[..] == Appended(old(dst[..]), Text(src[..]), dsize)
    ensures n == Strlen(old(dst[..dsize])) + Strlen(src[..])
  {
    var dlen := FindEnd(dst, dsize);
    assert dst[..][..dsize] == dst[..dsize];
    var left := dsize - dlen;
    if left == 0 {
      var s := SkipToEnd(src, 0);
      return dlen + s;
    }
    var d, s := AppendText(dst, src, dlen, left - 1);
    dst[d] := NUL;
    n := dlen + s;
  }
}

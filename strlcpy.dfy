/**
 * The BSD strlcpy of swtsfunction.c: copy a NUL-terminated string into a
 * buffer of siz characters, copying at most siz - 1 of them and always
 * terminating the copy with a NUL when siz is not 0, and return the length
 * of the source string so that the caller can tell truncation (a result of
 * siz or more) from a complete copy.
 */
module StrLcpy {

  const NUL: char := '\0'

  /** strlen: the index of the first NUL. */
  function StrLen(s: seq<char>): (n: nat)
    requires NUL in s
    ensures n < |s| && s[n] == NUL
    ensures forall i :: 0 <= i < n ==> s[i] != NUL
  {
    if s[0] == NUL then 0
    else
      assert NUL in s[1..] by {
        var k :| 0 <= k < |s| && s[k] == NUL;
        assert s[1..][k - 1] == NUL;
      }
      1 + StrLen(s[1..])
  }

  /** The C string held by s: the characters before its first NUL. */
  function CString(s: seq<char>): (c: seq<char>)
    requires NUL in s
    ensures NUL !in c && |c| == StrLen(s)
  {
    s[..StrLen(s)]
  }

  function Min(a: nat, b: nat): nat
  {
    if a <= b then a else b
  }

  /**
   * The buffer after the copy: nothing written when siz is 0; otherwise the
   * first min(strlen(src), siz - 1) characters of src, then a NUL, and the
   * rest of the buffer as it was.
   */
  function StrlcpySpec(dst0: seq<char>, src: seq<char>, siz: nat): (d: seq<char>)
    requires NUL in src && siz <= |dst0|
    ensures |d| == |dst0|
  {
    if siz == 0 then dst0
    else
      var m := Min(StrLen(src), siz - 1);
      src[..m] + [NUL] + dst0[m + 1..]
  }

  /**
   * strlcpy with the pointer walks of the C code: d and s are indices into
   * dst and src, n counts the room left.  The copy loop stops after a NUL
   * or when n runs out; in the second case the C code writes the
   * terminating NUL and scans the rest of src for its end.  A null dst gives
   * 0 and writes nothing.
   */
  method Strlcpy(dst: array?<char>, src: seq<char>, siz: nat) returns (r: nat)
    requires NUL in src
    requires dst != null ==> siz <= dst.Length
    modifies dst
    ensures dst == null ==> r == 0
    ensures dst != null ==> r == StrLen(src) && dst[..] == StrlcpySpec(old(dst[..]), src, siz)
  {
    if dst == null {
      return 0;
    }
    ghost var len := StrLen(src);
    var d, s, n := 0, 0, siz;
    if n != 0 {
      n := n - 1;
      if n != 0 {
        while true
          invariant 0 < n && d == s && s + n == siz - 1 && s <= len
          invariant forall i :: 0 <= i < s ==> dst[i] == src[i]
          invariant forall i :: s <= i < dst.Length ==> dst[i] == old(dst[i])
          decreases n
        {
          var c := src[s];
          dst[d] := c;
          d, s := d + 1, s + 1;
          if c == NUL {
            break;
          }
          n := n - 1;
          if n == 0 {
            break;
          }
        }
      }
    }
    // here either n == 0 and s characters were copied, or n > 0 and the
    // copy ended with the NUL at index s - 1
    assert siz != 0 && n == 0 ==> s == Min(len, siz - 1);
    assert n != 0 ==> s == len + 1 && siz - 1 > len;
    ghost var m := if siz == 0 then 0 else Min(len, siz - 1);
    if n == 0 {
      if siz != 0 {
        dst[d] := NUL;
      }
      var c := src[s];
      s := s + 1;
      while c != NUL
        invariant 0 < s <= len + 1
        invariant c == src[s - 1]
        decreases len + 1 - s
      {
        c := src[s];
        s := s + 1;
      }
    }
    r := s - 1;
    if siz != 0 {
      SpecFromWrites(old(dst[..]), src, siz, dst[..], m);
    }
  }

  /** The buffer StrlcpySpec describes, character by character. */
  lemma SpecFromWrites(dst0: seq<char>, src: seq<char>, siz: nat, d: seq<char>, m: nat)
    requires NUL in src && 0 < siz <= |dst0| == |d|
    requires m == Min(StrLen(src), siz - 1)
    requires forall i :: 0 <= i < m ==> d[i] == src[i]
    requires d[m] == NUL
    requires forall i :: m < i < |d| ==> d[i] == dst0[i]
    ensures d == StrlcpySpec(dst0, src, siz)
  {
  }

  /**
   * With room for at least one character, the buffer afterwards holds a C
   * string of min(strlen(src), siz - 1) characters, a prefix of src's; it
   * is all of src's exactly when the returned length is below siz.
   */
  lemma StrlcpyTruncation(dst0: seq<char>, src: seq<char>, siz: nat)
    requires NUL in src && 0 < siz <= |dst0|
    ensures var d := StrlcpySpec(dst0, src, siz);
            NUL in d &&
            StrLen(d) == Min(StrLen(src), siz - 1) &&
            CString(d) == CString(src)[..StrLen(d)] &&
            (CString(d) == CString(src) <==> StrLen(src) < siz)
  {
    var d, m := StrlcpySpec(dst0, src, siz), Min(StrLen(src), siz - 1);
    assert d[m] == NUL;
    StrLenAt(d, m);
    assert CString(d) == src[..m];
    if CString(d) == CString(src) {
      assert |CString(src)| == StrLen(src);
    }
  }

  /** A NUL preceded by non-NUL characters only is the first one. */
  lemma StrLenAt(s: seq<char>, m: nat)
    requires m < |s| && s[m] == NUL
    requires forall i :: 0 <= i < m ==> s[i] != NUL
    ensures NUL in s && StrLen(s) == m
  {
    assert s[m] in s;
  }

  /** With siz 0 the buffer is untouched. */
  lemma StrlcpyZero(dst0: seq<char>, src: seq<char>)
    requires NUL in src
    ensures StrlcpySpec(dst0, src, 0) == dst0
  {
  }
}

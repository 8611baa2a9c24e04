/**
 * The parts of the C library whose behaviour the server's decisions depend on:
 * NUL-terminated strings, strncmp, strtok and the bytes of a string literal.
 * Characters stand for C `char` bytes.
 */
module LibC {
  import opened Wrappers

  /** A C string holds no NUL: the NUL is its terminator, not part of it. */
  predicate NulFree(s: string)
  {
    forall i :: 0 <= i < |s| ==> s[i] != '\0'
  }

  /** The C string stored at the start of a buffer: every byte before the first NUL. */
  function CStr(buf: string): (s: string)
    ensures NulFree(s)
    ensures s <= buf
    ensures |s| < |buf| ==> buf[|s|] == '\0'
  {
    if buf == [] || buf[0] == '\0' then [] else [buf[0]] + CStr(buf[1..])
  }

  lemma CStrOfNulFree(s: string)
    requires NulFree(s)
    ensures CStr(s) == s
  {
  }

  /** A C string followed by a NUL and any further bytes reads back as itself. */
  lemma {:induction false} CStrOfTerminated(s: string, rest: string)
    requires NulFree(s) && rest != [] && rest[0] == '\0'
    ensures CStr(s + rest) == s
  {
    if s != [] {
      assert (s + rest)[1..] == s[1..] + rest;
      CStrOfTerminated(s[1..], rest);
    }
  }

  /** The byte at offset i of a NUL-terminated buffer; the terminator is read past the end. */
  function At(s: string, i: nat): char
  {
    if i < |s| then s[i] else '\0'
  }

  /**
   * strncmp(a, b, n) == 0: the two buffers agree on their first n bytes,
   * where the comparison stops early at a NUL both of them hold.
   */
  predicate StrnEq(a: string, b: string, n: nat)
    decreases n
  {
    n == 0 ||
    (At(a, 0) == At(b, 0) && (At(a, 0) == '\0' || StrnEq(a[1..], b[1..], n - 1)))
  }

  /** Comparing against a literal of n bytes, none of them NUL, is a prefix test. */
  lemma {:induction false} StrnEqLiteralPrefix(a: string, lit: string)
    requires NulFree(lit)
    ensures StrnEq(a, lit, |lit|) <==> lit <= CStr(a)
  {
    if lit != [] {
      assert lit[0] != '\0';
      if a != [] && a[0] == lit[0] {
        assert NulFree(lit[1..]);
        StrnEqLiteralPrefix(a[1..], lit[1..]);
        assert CStr(a) == [a[0]] + CStr(a[1..]);
        assert lit == [lit[0]] + lit[1..];
      }
    }
  }

  /** Comparing against a literal followed by its NUL, over both, is an exact match. */
  lemma {:induction false} StrnEqLiteralExact(a: string, lit: string)
    requires NulFree(lit)
    ensures StrnEq(a, lit + "\0", |lit| + 1) <==> CStr(a) == lit
  {
    if lit == [] {
      assert At(lit + "\0", 0) == '\0';
      assert CStr(a) == [] <==> At(a, 0) == '\0';
    } else {
      assert lit[0] != '\0';
      assert (lit + "\0")[1..] == lit[1..] + "\0";
      if a != [] && a[0] == lit[0] {
        assert NulFree(lit[1..]);
        StrnEqLiteralExact(a[1..], lit[1..]);
        assert CStr(a) == [a[0]] + CStr(a[1..]);
        assert lit == [lit[0]] + lit[1..];
      }
    }
  }

  /** strncmp(a, b, n) == 0 does not depend on the order of its two strings. */
  lemma {:induction false} StrnEqSymmetric(a: string, b: string, n: nat)
    ensures StrnEq(a, b, n) <==> StrnEq(b, a, n)
    decreases n
  {
    if n > 0 && At(a, 0) == At(b, 0) && At(a, 0) != '\0' {
      StrnEqSymmetric(a[1..], b[1..], n - 1);
    }
  }

  /**
   * The bytes that write(fd, lit, n) sends for a string literal `lit`: the
   * literal is stored followed by its NUL, and the first n stored bytes go out.
   */
  function LiteralBytes(lit: string, n: nat): (r: string)
    requires n <= |lit| + 1
    ensures |r| == n
    ensures n <= |lit| ==> r <= lit
  {
    (lit + "\0")[..n]
  }

  /** Every byte of s is one of the delimiters. */
  predicate AllIn(s: string, delims: string)
  {
    forall c :: c in s ==> c in delims
  }

  /** No byte of s is one of the delimiters. */
  predicate NoneIn(s: string, delims: string)
  {
    forall c :: c in s ==> c !in delims
  }

  /** Index of the first delimiter at or after i, or |s| when there is none. */
  function SpanEnd(s: string, i: nat, delims: string): (j: nat)
    requires i <= |s|
    ensures i <= j <= |s|
    ensures forall k :: i <= k < j ==> s[k] !in delims
    ensures j < |s| ==> s[j] in delims
    decreases |s| - i
  {
    if i == |s| || s[i] in delims then i else SpanEnd(s, i + 1, delims)
  }

  /** What one strtok call yields: the token (NULL when none is left) and where the next call resumes. */
  datatype Scan = Scan(token: Option<string>, resume: nat)

  /**
   * One call of strtok on the C string s, resuming at pos: skip a run of
   * delimiters, take the maximal run of other bytes as the token, and consume
   * the single delimiter that ends it. With no token left, strtok returns
   * NULL and every later call resumes at the end.
   */
  function NextToken(s: string, pos: nat, delims: string): (r: Scan)
    requires pos <= |s|
    ensures pos <= r.resume <= |s|
    ensures r.token.None? <==> forall k :: pos <= k < |s| ==> s[k] in delims
    ensures r.token.None? ==> r.resume == |s|
    ensures r.token.Some? ==> r.token.value != [] && pos < r.resume
    ensures r.token.Some? ==> NoneIn(r.token.value, delims)
    ensures r.token.Some? && NulFree(s) ==> NulFree(r.token.value)
    decreases |s| - pos
  {
    if pos == |s| then Scan(None, |s|)
    else if s[pos] in delims then NextToken(s, pos + 1, delims)
    else
      var end := SpanEnd(s, pos, delims);
      Scan(Some(s[pos..end]), if end < |s| then end + 1 else end)
  }

  /**
   * The independent reading of one strtok call: when the bytes from pos to
   * start are delimiters, those from start to end are a token free of them,
   * and end is the end of the string or a delimiter, strtok returns exactly
   * s[start..end] and resumes after that single delimiter.
   */
  lemma {:induction false} NextTokenAt(s: string, pos: nat, start: nat, end: nat, delims: string)
    requires pos <= start < end <= |s|
    requires AllIn(s[pos..start], delims)
    requires NoneIn(s[start..end], delims)
    requires end == |s| || s[end] in delims
    ensures NextToken(s, pos, delims) == Scan(Some(s[start..end]), if end < |s| then end + 1 else end)
    decreases start - pos
  {
    if pos < start {
      assert s[pos] == s[pos..start][0];
      assert s[pos + 1..start] == s[pos..start][1..];
      NextTokenAt(s, pos + 1, start, end, delims);
    } else {
      assert s[start] == s[start..end][0];
      forall k | start <= k < end ensures s[k] !in delims {
        assert s[k] == s[start..end][k - start];
      }
      assert SpanEnd(s, start, delims) == end;
    }
  }

  /**
   * The converse of NextTokenAt: every token strtok returns is laid out that
   * way, a run of delimiters, then the token, then the end of the string or
   * the single delimiter the call consumes.
   */
  lemma {:induction false} NextTokenSpan(s: string, pos: nat, delims: string) returns (start: nat, end: nat)
    requires pos <= |s|
    requires NextToken(s, pos, delims).token.Some?
    ensures pos <= start < end <= |s|
    ensures AllIn(s[pos..start], delims)
    ensures NoneIn(s[start..end], delims)
    ensures end == |s| || s[end] in delims
    ensures NextToken(s, pos, delims) == Scan(Some(s[start..end]), if end < |s| then end + 1 else end)
    decreases |s| - pos
  {
    if s[pos] in delims {
      start, end := NextTokenSpan(s, pos + 1, delims);
      assert s[pos..start] == [s[pos]] + s[pos + 1..start];
    } else {
      start, end := pos, SpanEnd(s, pos, delims);
      assert s[pos..start] == [];
      forall c | c in s[start..end] ensures c !in delims {
        var k :| 0 <= k < end - start && s[start..end][k] == c;
        assert s[start + k] == c;
      }
    }
  }

  /** Once strtok has reached the end of the string, it returns NULL for good. */
  lemma NextTokenAtEnd(s: string, delims: string)
    ensures NextToken(s, |s|, delims) == Scan(None, |s|)
  {
  }
}

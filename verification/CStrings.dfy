/** NUL-terminated strings in a byte buffer. */
module CStrings {
  import opened Bytes

  /** `text` is stored at `at`, with its NUL, below `used`. */
  ghost predicate StoredAt(s: seq<Byte>, used: nat, at: nat, text: seq<Byte>) {
    && at + |text| < used <= |s|
    && s[at..at + |text|] == text && s[at + |text|] == 0
    && forall i :: 0 <= i < |text| ==> text[i] != 0
  }

  /** Storing more behind it leaves a stored string alone. */
  lemma StoredKept(s: seq<Byte>, t: seq<Byte>, used: nat, more: nat, at: nat, text: seq<Byte>)
    requires StoredAt(s, used, at, text) && used <= more <= |t| && |s| == |t| && s[..used] == t[..used]
    ensures StoredAt(t, more, at, text)
  {
    assert t[at..at + |text|] == t[..used][at..at + |text|] == s[..used][at..at + |text|] == s[at..at + |text|];
    assert t[at + |text|] == t[..used][at + |text|] == s[..used][at + |text|];
  }

  /** `text` is being stored behind `before`. */
  ghost predicate Growing(before: seq<Byte>, s: seq<Byte>, used: nat, text: seq<Byte>) {
    used <= |s| && s[..used] == before + text && forall i :: 0 <= i < |text| ==> text[i] != 0
  }

  lemma Begun(s: seq<Byte>, used: nat)
    requires used <= |s|
    ensures Growing(s[..used], s, used, [])
  {
  }

  lemma GrowMore(before: seq<Byte>, s: seq<Byte>, used: nat, text: seq<Byte>, c: Byte)
    requires Growing(before, s, used, text) && used < |s| && c != 0
    ensures Growing(before, s[used := c], used + 1, text + [c])
  {
  }

  /** The NUL completes the string. */
  lemma GrowEnd(before: seq<Byte>, s: seq<Byte>, used: nat, text: seq<Byte>)
    requires Growing(before, s, used, text) && used < |s|
    ensures |before| + |text| == used && StoredAt(s[used := 0], used + 1, |before|, text)
    ensures s[used := 0][..|before|] == before && s[used := 0][|before|..used] == text
  {
    var t := s[used := 0];
    assert t[..used] == before + text;
    assert t[|before|..used] == t[..used][|before|..];
  }

  lemma GrowPrefix(before: seq<Byte>, s: seq<Byte>, used: nat, text: seq<Byte>)
    requires Growing(before, s, used, text)
    ensures |before| + |text| == used && s[..|before|] == before
  {
    assert s[..|before|] == s[..used][..|before|];
  }
}

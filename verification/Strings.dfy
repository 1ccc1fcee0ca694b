/** Byte strings as the driver handles them: Go's strings.Split, strings.Join, strings.Trim and
    the order Go's < gives, on strings whose characters stand for bytes. */
module Strings {

  /** strings.Split(s, sep) for a one-byte separator: never empty. */
  function Split(s: string, sep: char): (words: seq<string>)
    ensures |words| >= 1
  {
    if s == "" then [""]
    else
      var rest := Split(s[1..], sep);
      if s[0] == sep then [""] + rest else [[s[0]] + rest[0]] + rest[1..]
  }

  /** strings.Join(words, sep). */
  function Join(words: seq<string>, sep: char): string {
    if |words| == 0 then ""
    else if |words| == 1 then words[0]
    else words[0] + [sep] + Join(words[1..], sep)
  }

  /** Join undoes Split, and no word holds the separator. */
  lemma {:induction false} JoinSplit(s: string, sep: char)
    ensures Join(Split(s, sep), sep) == s
    ensures forall w | w in Split(s, sep) :: sep !in w
  {
    if s != "" {
      var rest := Split(s[1..], sep);
      JoinSplit(s[1..], sep);
      if s[0] != sep {
        assert Split(s, sep)[1..] == rest[1..];
      }
    }
  }

  lemma Associate<T>(a: seq<T>, b: seq<T>, c: seq<T>)
    ensures a + (b + c) == (a + b) + c
  {}

  lemma Tail<T>(a: seq<T>, b: seq<T>)
    requires a != []
    ensures (a + b)[0] == a[0] && (a + b)[1..] == a[1..] + b
  {}

  lemma {:induction false} SplitConcat(a: string, b: string, sep: char)
    ensures Split(a + [sep] + b, sep) == Split(a, sep) + Split(b, sep)
  {
    var whole := a + [sep] + b;
    if a == "" {
      assert whole[1..] == b;
    } else {
      var ra, rb := Split(a[1..], sep), Split(b, sep);
      SplitConcat(a[1..], b, sep);
      Tail(a, [sep]);
      Tail(a + [sep], b);
      if a[0] == sep {
        Associate([""], ra, rb);
      } else {
        Tail(ra, rb);
        Associate([[a[0]] + ra[0]], ra[1..], rb);
      }
    }
  }

  lemma {:induction false} SplitWord(w: string, sep: char)
    requires sep !in w
    ensures Split(w, sep) == [w]
  {
    if w != "" {
      SplitWord(w[1..], sep);
      assert w == [w[0]] + w[1..];
    }
  }

  /** Words free of the separator survive the round trip. */
  lemma {:induction false} SplitJoin(words: seq<string>, sep: char)
    requires |words| >= 1
    requires forall w | w in words :: sep !in w
    ensures Split(Join(words, sep), sep) == words
  {
    if |words| == 1 {
      SplitWord(words[0], sep);
    } else {
      SplitJoin(words[1..], sep);
      SplitPrepend(words[0], Join(words[1..], sep), sep);
    }
  }

  lemma SplitPrepend(w: string, tail: string, sep: char)
    requires sep !in w
    ensures Split(w + [sep] + tail, sep) == [w] + Split(tail, sep)
  {
    SplitConcat(w, tail, sep);
    SplitWord(w, sep);
  }

  lemma {:induction false} JoinConcat(a: seq<string>, b: seq<string>, sep: char)
    requires |a| >= 1 && |b| >= 1
    ensures Join(a + b, sep) == Join(a, sep) + [sep] + Join(b, sep)
  {
    if |a| == 1 {
      assert (a + b)[1..] == b;
    } else {
      JoinConcat(a[1..], b, sep);
      assert (a + b)[1..] == a[1..] + b;
    }
  }

  /** The string test HasPrefix(a, b + sep) is the proper-prefix test on segments, for all strings. */
  lemma PrefixBySegments(a: string, b: string, sep: char)
    ensures b + [sep] <= a <==> Split(b, sep) < Split(a, sep)
  {
    if b + [sep] <= a {
      var rest := a[|b| + 1..];
      assert a == b + [sep] + rest;
      SplitConcat(b, rest, sep);
    }
    if Split(b, sep) < Split(a, sep) {
      var rest := Split(a, sep)[|Split(b, sep)|..];
      assert Split(a, sep) == Split(b, sep) + rest;
      JoinSplit(a, sep);
      JoinSplit(b, sep);
      JoinConcat(Split(b, sep), rest, sep);
    }
  }

  function TrimLeft(s: string, c: char): (t: string)
    ensures t == "" || t[0] != c
    ensures |t| <= |s| && s[|s| - |t|..] == t
    ensures forall i | 0 <= i < |s| - |t| :: s[i] == c
  {
    if s != "" && s[0] == c then TrimLeft(s[1..], c) else s
  }

  function TrimRight(s: string, c: char): (t: string)
    ensures t == "" || t[|t| - 1] != c
    ensures t <= s
    ensures forall i | |t| <= i < |s| :: s[i] == c
  {
    if s != "" && s[|s| - 1] == c then TrimRight(s[..|s| - 1], c) else s
  }

  /** strings.Trim(s, c) for a one-byte cutset. */
  function Trim(s: string, c: char): (t: string)
    ensures t == "" || (t[0] != c && t[|t| - 1] != c)
  {
    TrimRight(TrimLeft(s, c), c)
  }

  /** Go's a < b: byte by byte, a proper prefix first. */
  predicate Less(a: string, b: string) {
    if b == "" then false
    else if a == "" then true
    else if a[0] != b[0] then a[0] < b[0]
    else Less(a[1..], b[1..])
  }

  /** That is: b goes on where a ends, or at the first byte where they differ a's is less. */
  lemma {:induction false} LessIsBytewise(a: string, b: string)
    ensures Less(a, b) <==> a < b || exists k :: 0 <= k < |a| && k < |b| && a[..k] == b[..k] && a[k] < b[k]
  {
    forall k | 0 < k <= |a| && k <= |b| && a[..k] == b[..k] ensures a[0] == b[0] {
      assert a[..k][0] == b[..k][0];
    }
    if a != "" && b != "" && a[0] == b[0] {
      LessIsBytewise(a[1..], b[1..]);
      FirstDifference(a, b);
    } else if a != "" && b != "" && a[0] < b[0] {
      assert a[..0] == b[..0];
    }
  }

  lemma FirstDifference(a: string, b: string)
    requires a != "" && b != "" && a[0] == b[0]
    ensures a < b <==> a[1..] < b[1..]
    ensures (exists k :: 0 <= k < |a| && k < |b| && a[..k] == b[..k] && a[k] < b[k])
            <==> exists k :: 0 <= k < |a[1..]| && k < |b[1..]| && a[1..][..k] == b[1..][..k] && a[1..][k] < b[1..][k]
  {
    assert a == [a[0]] + a[1..] && b == [b[0]] + b[1..];
    if k :| 0 <= k < |a| && k < |b| && a[..k] == b[..k] && a[k] < b[k] {
      assert a[1..][..k - 1] == a[..k][1..] && b[1..][..k - 1] == b[..k][1..];
      assert a[1..][k - 1] < b[1..][k - 1];
    }
    if k :| 0 <= k < |a[1..]| && k < |b[1..]| && a[1..][..k] == b[1..][..k] && a[1..][k] < b[1..][k] {
      assert a[..k + 1] == [a[0]] + a[1..][..k] && b[..k + 1] == [b[0]] + b[1..][..k];
      assert a[k + 1] < b[k + 1];
    }
  }

  lemma {:induction false} LessTotal(a: string, b: string)
    ensures a == b || Less(a, b) || Less(b, a)
    ensures !(Less(a, b) && Less(b, a))
    ensures !Less(a, a)
  {
    if a != "" && b != "" && a[0] == b[0] {
      LessTotal(a[1..], b[1..]);
      assert a[1..] == b[1..] ==> a == b by {
        assert a == [a[0]] + a[1..] && b == [b[0]] + b[1..];
      }
    }
    if a != "" {
      LessTotal(a[1..], a[1..]);
    }
  }

  lemma {:induction false} LessTransitive(a: string, b: string, c: string)
    requires Less(a, b) && Less(b, c)
    ensures Less(a, c)
  {
    if a != "" && a[0] == b[0] == c[0] {
      LessTransitive(a[1..], b[1..], c[1..]);
    }
  }
}

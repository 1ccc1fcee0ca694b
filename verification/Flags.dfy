/** The mount flags a graft keeps, on both sides of the process boundary: graftFlags in
    pkg/driver/graft.go writes them, mount_flags in cmd/nsmount-heal/heal.c reads them. */
module Flags {
  import opened Strings
  import opened Keys

  const MOUNT_ATTR_RDONLY: bv8 := 1
  const MOUNT_ATTR_NOSUID: bv8 := 2
  const MOUNT_ATTR_NODEV: bv8 := 4
  const MOUNT_ATTR_NOEXEC: bv8 := 8

  /** The bit of one flag word; none for any other word. */
  function Bit(word: string): Option<bv8> {
    if word == "ro" then Some(MOUNT_ATTR_RDONLY)
    else if word == "nosuid" then Some(MOUNT_ATTR_NOSUID)
    else if word == "nodev" then Some(MOUNT_ATTR_NODEV)
    else if word == "noexec" then Some(MOUNT_ATTR_NOEXEC)
    else None
  }

  /** The restrictions a list of mount options names: those of its words that are flags. */
  function Restrictions(words: seq<string>): bv8 {
    if words == [] then 0 else (match Bit(words[0]) case None => 0 case Some(b) => b) | Restrictions(words[1..])
  }

  function FlagWords(words: seq<string>): seq<string> {
    if words == [] then []
    else if Bit(words[0]).Some? then [words[0]] + FlagWords(words[1..])
    else FlagWords(words[1..])
  }

  /** graftFlags. */
  method GraftFlags(opts: string) returns (flags: string)
    ensures flags == Join(FlagWords(Split(opts, ',')), ',')
  {
    var words, keep := Split(opts, ','), [];
    assert words[0..] == words;
    for i := 0 to |words|
      invariant keep + FlagWords(words[i..]) == FlagWords(words)
    {
      assert words[i..][0] == words[i] && words[i..][1..] == words[i + 1..];
      if Bit(words[i]).Some? {
        keep := keep + [words[i]];
      }
    }
    assert keep + FlagWords([]) == keep && words[|words|..] == [];
    flags := Join(keep, ',');
  }

  /** One call of strtok_r(.., ",", ..): separators are skipped, the token ends at the next one. */
  datatype Token = End | Token(word: string, rest: string)

  function StrTok(s: string): (t: Token)
    ensures t.Token? ==> |t.rest| < |s|
  {
    if s == "" then End
    else if s[0] == ',' then StrTok(s[1..])
    else var n := WordEnd(s); Token(s[..n], if n == |s| then "" else s[n + 1..])
  }

  function WordEnd(s: string): (n: nat)
    ensures n <= |s| && ',' !in s[..n] && (n < |s| ==> s[n] == ',')
    ensures s != "" && s[0] != ',' ==> n > 0
  {
    if s == "" || s[0] == ',' then 0 else 1 + WordEnd(s[1..])
  }

  /** Bits already gathered, with what the rest gives; nothing if either has an unknown word. */
  function Gather(first: Option<bv8>, rest: Option<bv8>): Option<bv8> {
    if first.None? || rest.None? then None else Some(first.value | rest.value)
  }

  lemma GatherAssociates(a: Option<bv8>, b: Option<bv8>, c: Option<bv8>)
    ensures Gather(a, Gather(b, c)) == Gather(Gather(a, b), c)
    ensures Gather(a, Some(0)) == a
  {}

  /** What mount_flags answers: the bits of its tokens, or nothing (-1) if one is unknown. */
  function MountFlagsOf(list: string): Option<bv8>
    decreases |list|
  {
    match StrTok(list)
    case End => Some(0)
    case Token(word, rest) => Gather(Bit(word), MountFlagsOf(rest))
  }

  function Left(token: Token): Option<bv8> {
    match token
    case End => Some(0)
    case Token(word, rest) => Gather(Bit(word), MountFlagsOf(rest))
  }

  /** mount_flags. */
  method MountFlags(list: string) returns (bits: Option<bv8>)
    ensures bits == MountFlagsOf(list)
  {
    var acc: bv8 := 0;
    var token := StrTok(list);
    GatherAssociates(Left(token), Left(token), Some(0));
    while token.Token?
      invariant MountFlagsOf(list) == Gather(Some(acc), Left(token))
      decreases if token.Token? then |token.rest| + 1 else 0
    {
      var bit := Bit(token.word);
      if bit.None? {
        return None;
      }
      GatherAssociates(Some(acc), bit, MountFlagsOf(token.rest));
      acc := acc | bit.value;
      token := StrTok(token.rest);
    }
    bits := Some(acc);
  }

  lemma {:induction false} WordEndOfWord(word: string, tail: string)
    requires ',' !in word && (tail == "" || tail[0] == ',')
    ensures WordEnd(word + tail) == |word|
  {
    if word == "" {
      assert word + tail == tail;
    } else {
      assert (word + tail)[1..] == word[1..] + tail;
      WordEndOfWord(word[1..], tail);
    }
  }

  lemma StrTokOfWord(word: string, rest: string)
    requires word != "" && ',' !in word
    ensures StrTok(word + "," + rest) == Token(word, rest)
    ensures StrTok(word) == Token(word, "")
  {
    WordEndOfWord(word, "," + rest);
    WordEndOfWord(word, "");
    assert word + "" == word && word + ("," + rest) == word + "," + rest;
  }

  lemma {:induction false} FlagWordsAreFlags(words: seq<string>)
    ensures forall w | w in FlagWords(words) :: Bit(w).Some?
    ensures Restrictions(FlagWords(words)) == Restrictions(words)
  {
    if words != [] {
      FlagWordsAreFlags(words[1..]);
      if Bit(words[0]).Some? {
        assert FlagWords(words)[1..] == FlagWords(words[1..]);
      }
    }
  }

  lemma FlagIsAWord(word: string)
    requires Bit(word).Some?
    ensures word != "" && ',' !in word
  {}

  lemma {:induction false} MountFlagsOfJoin(words: seq<string>)
    requires forall w | w in words :: Bit(w).Some?
    ensures MountFlagsOf(Join(words, ',')) == Some(Restrictions(words))
  {
    if words == [] {
      assert StrTok("") == End;
    } else {
      FlagIsAWord(words[0]);
      if |words| == 1 {
        StrTokOfWord(words[0], "");
        assert MountFlagsOf("") == Some(0);
        assert Restrictions(words[1..]) == 0;
      } else {
        StrTokOfWord(words[0], Join(words[1..], ','));
        MountFlagsOfJoin(words[1..]);
      }
    }
  }

  /** For every option string, mount_flags accepts what graftFlags emits -- the empty list too --
      and yields exactly the restrictions the options name. */
  lemma {:induction false} FlagsSurvive(opts: string)
    ensures MountFlagsOf(Join(FlagWords(Split(opts, ',')), ',')) == Some(Restrictions(Split(opts, ',')))
  {
    FlagWordsAreFlags(Split(opts, ','));
    MountFlagsOfJoin(FlagWords(Split(opts, ',')));
  }

  /** A bit is restricted exactly when its word is among the options. */
  lemma {:induction false} RestrictionsMeanWords(words: seq<string>)
    ensures Restrictions(words) & 1 != 0 <==> "ro" in words
    ensures Restrictions(words) & 2 != 0 <==> "nosuid" in words
    ensures Restrictions(words) & 4 != 0 <==> "nodev" in words
    ensures Restrictions(words) & 8 != 0 <==> "noexec" in words
    ensures Restrictions(words) & 0xF0 == 0
  {
    if words != [] {
      RestrictionsMeanWords(words[1..]);
      assert words == [words[0]] + words[1..];
    }
  }

  /** graftFlags keeps the four words, in their order, and no other. */
  lemma {:induction false} FlagWordsAreTheFour(a: seq<string>, b: seq<string>)
    ensures FlagWords(a + b) == FlagWords(a) + FlagWords(b)
    ensures forall w :: FlagWords([w]) == if w in {"ro", "nosuid", "nodev", "noexec"} then [w] else []
  {
    if a == [] {
      assert a + b == b;
    } else {
      FlagWordsAreTheFour(a[1..], b);
      assert (a + b)[1..] == a[1..] + b;
    }
  }

  /** A word that mount_flags refuses. */
  predicate Unknown(w: string) { w !in {"", "ro", "nosuid", "nodev", "noexec"} }

  /** mount_flags reads the words between commas: it refuses a list with a word that is none of the four,
      empty ones aside, and answers the bits of all of them otherwise. */
  lemma {:induction false} MountFlagsIs(list: string)
    ensures MountFlagsOf(list) == ReadWords(Split(list, ','))
    decreases |list|
  {
    if list != "" && list[0] == ',' {
      MountFlagsIs(list[1..]);
      assert Split(list, ',') == [""] + Split(list[1..], ',');
      FirstWord("", Split(list[1..], ','));
    } else if list != "" {
      var n := WordEnd(list);
      SplitWord(list[..n], ',');
      if n == |list| {
        assert list[..n] == list;
        OneWord(list);
      } else {
        var rest := list[n + 1..];
        MountFlagsIs(rest);
        SplitConcat(list[..n], rest, ',');
        assert list == list[..n] + [','] + rest;
        FirstWord(list[..n], Split(rest, ','));
      }
    } else {
      OneWord("");
    }
  }

  /** What a list of words is to mount_flags. */
  function ReadWords(words: seq<string>): Option<bv8> {
    if exists w | w in words :: Unknown(w) then None else Some(Restrictions(words))
  }

  lemma FirstWord(w: string, words: seq<string>)
    ensures ReadWords([w] + words) == if w == "" then ReadWords(words) else Gather(Bit(w), ReadWords(words))
  {
    assert ([w] + words)[1..] == words && ([w] + words)[0] == w;
    assert forall x | x in words :: x in [w] + words;
    assert w in [w] + words;
  }

  lemma OneWord(w: string)
    ensures ReadWords([w]) == if w == "" then Some(0) else Gather(Bit(w), Some(0))
  {
    FirstWord(w, []);
    assert [w] + [] == [w];
  }
}

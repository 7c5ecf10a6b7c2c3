/** What slugs and namespaced ids are, as words and parts of texts. */
module ScaffoldMeaning {
  import opened Strings
  import opened Scaffold
  import Context

  // ---------------------------------------------------------------- words

  function RunLength(s: string): (n: nat)
    ensures n <= |s| && AllIn(IsPlain, s[..n])
    ensures n < |s| ==> !IsPlain(s[n])
  {
    if s != "" && IsPlain(s[0]) then
      assert s[..RunLength(s[1..]) + 1] == [s[0]] + s[1..][..RunLength(s[1..])];
      RunLength(s[1..]) + 1
    else 0
  }

  /** The runs of small letters and digits in a text. */
  function Words(s: string): (words: seq<string>)
    ensures forall i | 0 <= i < |words| :: words[i] != "" && AllIn(IsPlain, words[i])
    decreases |s|
  {
    TrimStartShrinks(IsOther, s);
    TrimStartLeaves(IsOther, s);
    var t := TrimStart(IsOther, s);
    if t == "" then [] else [t[..RunLength(t)]] + Words(t[RunLength(t)..])
  }

  lemma {:induction false} GapDrops(gap: string, s: string)
    requires AllIn(IsOther, gap) && (s != "" ==> IsPlain(s[0]))
    ensures TrimStart(IsOther, gap + s) == s
  {
    if gap == "" {
      assert gap + s == s;
    } else {
      assert (gap + s)[1..] == gap[1..] + s;
      GapDrops(gap[1..], s);
    }
  }

  lemma {:induction false} RunOf(word: string, rest: string)
    requires AllIn(IsPlain, word) && (rest != "" ==> !IsPlain(rest[0]))
    ensures RunLength(word + rest) == |word|
  {
    if word == "" {
      assert word + rest == rest;
    } else {
      assert (word + rest)[1..] == word[1..] + rest;
      RunOf(word[1..], rest);
    }
  }

  /** Words are read one after the other: what stands around them does not matter, and without any there is none. */
  lemma WordsMean(gap: string, word: string, rest: string)
    requires AllIn(IsOther, gap) && AllIn(IsPlain, word) && (rest != "" ==> !IsPlain(rest[0]))
    ensures word != "" ==> Words(gap + word + rest) == [word] + Words(rest)
    ensures Words(gap) == []
  {
    GapDrops(gap, "");
    assert gap + "" == gap;
    if word != "" {
      var s := word + rest;
      assert s[0] == word[0] && gap + word + rest == gap + s;
      GapDrops(gap, s);
      RunOf(word, rest);
      assert s[..|word|] == word && s[|word|..] == rest;
    }
  }

  // ---------------------------------------------------------------- slugs

  lemma {:induction false} DashedRun(word: string, rest: string)
    requires AllIn(IsPlain, word)
    ensures Dashed(word + rest) == word + Dashed(rest)
  {
    if word == "" {
      assert word + rest == rest;
    } else {
      assert (word + rest)[1..] == word[1..] + rest;
      DashedRun(word[1..], rest);
      assert word == [word[0]] + word[1..];
    }
  }

  lemma JoinDash(word: string, words: seq<string>)
    ensures Join([word] + words, "-") == if words == [] then word else word + "-" + Join(words, "-")
  {
    JoinFront(word, words, "-");
  }

  lemma FirstWord(s: string, n: nat)
    requires s != "" && IsPlain(s[0]) && n == RunLength(s)
    ensures n > 0 && Words(s) == [s[..n]] + Words(s[n..]) && Dashed(s) == s[..n] + Dashed(s[n..])
  {
    assert s == s[..n] + s[n..] && "" + s[..n] + s[n..] == s;
    WordsMean("", s[..n], s[n..]);
    DashedRun(s[..n], s[n..]);
  }

  /** A text that starts with a word becomes its words with a dash between them, and perhaps one behind. */
  lemma {:induction false} DashedWords(s: string) returns (tail: string)
    requires s != "" && IsPlain(s[0])
    ensures tail in {"", "-"}
    ensures Words(s) != [] && Dashed(s) == Join(Words(s), "-") + tail
    decreases |s|
  {
    var n := RunLength(s);
    FirstWord(s, n);
    var word, rest := s[..n], s[n..];
    JoinDash(word, Words(rest));
    if rest == "" {
      return "";
    }
    TrimStartShrinks(IsOther, rest);
    TrimStartLeaves(IsOther, rest);
    var next := TrimStart(IsOther, rest);
    WordsBehindGap(rest);
    if next == "" {
      return "-";
    }
    tail := DashedWords(next);
    JoinTail(word, Join(Words(next), "-"), tail);
  }

  lemma JoinTail(word: string, words: string, tail: string)
    ensures word + ("-" + (words + tail)) == word + "-" + words + tail
  {
  }

  lemma WordsBehindGap(s: string)
    ensures Words(s) == Words(TrimStart(IsOther, s))
  {
    TrimStartLeaves(IsOther, s);
    var t := TrimStart(IsOther, s);
    assert TrimStart(IsOther, t) == t;
  }

  lemma {:induction false} JoinEnds(words: seq<string>)
    requires words != [] && forall i | 0 <= i < |words| :: words[i] != "" && AllIn(IsPlain, words[i])
    ensures var s := Join(words, "-"); s != "" && s[0] == words[0][0] && IsPlain(s[0]) && s[|s| - 1] != '-'
  {
    if |words| > 1 {
      JoinEnds(words[1..]);
      assert words == [words[0]] + words[1..];
      JoinDash(words[0], words[1..]);
    }
  }

  lemma TailTrimmed(s: string, tail: string)
    requires tail in {"", "-"} && s != "" && s[|s| - 1] != '-'
    ensures TrimEnd(IsDash, s + tail) == s
  {
    assert TrimEnd(IsDash, s) == s;
    if tail == "-" {
      assert (s + tail)[|s|] == '-' && (s + tail)[..|s|] == s;
    } else {
      assert s + tail == s;
    }
  }

  lemma DashesTrimmed(front: string, s: string, tail: string)
    requires front in {"", "-"} && tail in {"", "-"}
    requires s != "" && s[0] != '-' && s[|s| - 1] != '-'
    ensures Trim(IsDash, front + s + tail) == s
  {
    var whole := front + s + tail;
    assert TrimStart(IsDash, s + tail) == s + tail;
    if front == "-" {
      assert whole[0] == '-' && whole[1..] == s + tail;
    } else {
      assert whole == s + tail;
    }
    TailTrimmed(s, tail);
  }

  lemma OnlyADash(s: string)
    requires s in {"", "-"}
    ensures Trim(IsDash, s) == ""
  {
    if s == "-" {
      assert s[1..] == "";
    }
  }

  lemma DashedFront(s: string, front: string)
    requires front == if s != "" && !IsPlain(s[0]) then "-" else ""
    ensures Dashed(s) == front + Dashed(TrimStart(IsOther, s))
  {
    if s == "" || IsPlain(s[0]) {
      assert TrimStart(IsOther, s) == s;
      assert "" + Dashed(s) == Dashed(s);
    }
  }

  /** Dashing and trimming leaves the words, joined by dashes. */
  lemma TrimmedWords(s: string)
    ensures Trim(IsDash, Dashed(s)) == Join(Words(s), "-")
  {
    var t, front := TrimStart(IsOther, s), if s != "" && !IsPlain(s[0]) then "-" else "";
    WordsBehindGap(s);
    TrimStartLeaves(IsOther, s);
    DashedFront(s, front);
    if t == "" {
      OnlyADash(front);
      assert front + "" == front;
    } else {
      var tail := DashedWords(t);
      JoinEnds(Words(t));
      DashesTrimmed(front, Join(Words(t), "-"), tail);
      assert front + (Join(Words(t), "-") + tail) == front + Join(Words(t), "-") + tail;
    }
  }

  /** The slug of a name: the words of the lowered and trimmed name with dashes between them, under "agent-" unless it
      starts with a letter; and "agent-new" if there is no word. */
  lemma SlugifyMeans(lower: Lowering, value: string)
    ensures var words := Words(lower(Trim(Context.Blank, value)));
            Slugify(lower, value) ==
            if words == [] then "agent-new"
            else if 'a' <= words[0][0] <= 'z' then Join(words, "-")
            else "agent-" + Join(words, "-")
  {
    var s := lower(Trim(Context.Blank, value));
    TrimmedWords(s);
    DashedShape(s);
    TrimShape(Dashed(s));
    SingleDashesSame(Join(Words(s), "-"));
    if Words(s) != [] {
      JoinEnds(Words(s));
    } else {
      AgentNew();
    }
  }

  lemma AgentNew()
    ensures "agent-" + "new" == "agent-new"
  {
  }

  // ---------------------------------------------------------------- namespaced ids

  ghost predicate IsPart(part: string) {
    && part != "" && 'a' <= part[0] <= 'z'
    && forall i | 0 <= i < |part| :: 'a' <= part[i] <= 'z' || '0' <= part[i] <= '9' || part[i] == '-'
  }

  lemma PartMeans(part: string)
    ensures IsIdPart(part) <==> IsPart(part)
  {
    if IsPart(part) {
      forall i | 0 <= i < |part| ensures IsSlugChar(part[i]) {
      }
    }
    if IsIdPart(part) {
      forall i | 0 <= i < |part| ensures 'a' <= part[i] <= 'z' || '0' <= part[i] <= '9' || part[i] == '-' {
        assert IsSlugChar(part[i]);
      }
    }
  }

  lemma {:induction false} JoinOfSplit(s: string)
    ensures Join(Split(s, '.'), ".") == s
  {
    if s != "" {
      var rest := Split(s[1..], '.');
      JoinOfSplit(s[1..]);
      if s[0] == '.' {
        JoinFront("", rest, ".");
        assert "" + "." + s[1..] == s;
      } else {
        assert rest == [rest[0]] + rest[1..];
        JoinFront(rest[0], rest[1..], ".");
        JoinFront([s[0]] + rest[0], rest[1..], ".");
        assert [s[0]] + s[1..] == s;
      }
    }
  }

  lemma {:induction false} SplitOfJoin(parts: seq<string>)
    requires parts != [] && forall i | 0 <= i < |parts| :: IsPart(parts[i])
    ensures Split(Join(parts, "."), '.') == parts
  {
    assert forall i | 0 <= i < |parts[0]| :: parts[0][i] != '.';
    SplitWhole(parts[0], '.');
    if |parts| > 1 {
      SplitOfJoin(parts[1..]);
      JoinFront(parts[0], parts[1..], ".");
      assert parts == [parts[0]] + parts[1..];
      SplitAtSeparator(parts[0], Join(parts[1..], "."), '.');
    }
  }

  /** A namespaced id is two parts or more with dots between them, each a small letter with small letters, digits and
      dashes behind it. */
  lemma NamespacedMeans(id: string)
    ensures IsNamespaced(id) <==>
            exists parts: seq<string> :: |parts| >= 2 && id == Join(parts, ".") && forall i | 0 <= i < |parts| :: IsPart(parts[i])
  {
    var split := Split(id, '.');
    JoinOfSplit(id);
    if IsNamespaced(id) {
      forall i | 0 <= i < |split| ensures IsPart(split[i]) {
        PartMeans(split[i]);
      }
    }
    if parts: seq<string> :| |parts| >= 2 && id == Join(parts, ".") && forall i | 0 <= i < |parts| :: IsPart(parts[i]) {
      SplitOfJoin(parts);
      forall i | 0 <= i < |parts| ensures IsIdPart(parts[i]) {
        PartMeans(parts[i]);
      }
    }
  }
}

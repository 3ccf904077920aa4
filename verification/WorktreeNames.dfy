/** The Compose project name of a worktree, from its directory (`scripts/bootstrap-worktree.py`). */
module WorktreeNames {

  predicate IsAlphanumeric(c: char) {
    'a' <= c <= 'z' || '0' <= c <= '9'
  }

  predicate IsNameChar(c: char) {
    IsAlphanumeric(c) || c == '-'
  }

  /** `re.sub(r"[^a-z0-9]+", "-", s)`; `inRun` after a character already replaced. */
  function Collapse(s: string, inRun: bool): string {
    if s == "" then ""
    else if IsAlphanumeric(s[0]) then [s[0]] + Collapse(s[1..], false)
    else (if inRun then "" else "-") + Collapse(s[1..], true)
  }

  function StripLeft(s: string): string {
    if s != "" && s[0] == '-' then StripLeft(s[1..]) else s
  }

  function StripRight(s: string): string {
    if s != "" && s[|s| - 1] == '-' then StripRight(s[..|s| - 1]) else s
  }

  /** `project_name`, from the lower-cased directory name. */
  function ProjectName(lowered: string, identity: string): string {
    var stripped := StripRight(StripLeft(Collapse(lowered, false)));
    var slug := if stripped == "" then "sre-agent" else stripped;
    (if |slug| > 36 then slug[..36] else slug) + "-wt-" + identity
  }

  /** `[a-z0-9][a-z0-9_-]*`, matched in full. */
  predicate ReusableName(s: string) {
    s != "" && IsAlphanumeric(s[0]) && forall i :: 0 <= i < |s| ==> IsAlphanumeric(s[i]) || s[i] == '_' || s[i] == '-'
  }

  predicate AllNameChars(s: string) {
    forall i :: 0 <= i < |s| ==> IsNameChar(s[i])
  }

  lemma {:induction false} CollapseKeepsNameChars(s: string, inRun: bool)
    ensures AllNameChars(Collapse(s, inRun))
  {
    if s == "" {
    } else {
      CollapseKeepsNameChars(s[1..], false);
      CollapseKeepsNameChars(s[1..], true);
    }
  }

  lemma {:induction false} StripLeftStarts(s: string)
    requires AllNameChars(s)
    ensures AllNameChars(StripLeft(s)) && (StripLeft(s) != "" ==> IsAlphanumeric(StripLeft(s)[0]))
  {
    if s != "" && s[0] == '-' {
      StripLeftStarts(s[1..]);
    }
  }

  lemma {:induction false} StripRightKeepsStart(s: string)
    requires AllNameChars(s)
    ensures StripRight(s) <= s && AllNameChars(StripRight(s))
  {
    if s != "" && s[|s| - 1] == '-' {
      StripRightKeepsStart(s[..|s| - 1]);
    }
  }

  /** Every generated name passes the pattern the reuse path demands, and holds only `a-z0-9-`. */
  lemma GeneratedNamesAreReusable(lowered: string, identity: string)
    requires forall i :: 0 <= i < |identity| ==> IsAlphanumeric(identity[i])
    ensures ReusableName(ProjectName(lowered, identity)) && AllNameChars(ProjectName(lowered, identity))
  {
    var collapsed := Collapse(lowered, false);
    CollapseKeepsNameChars(lowered, false);
    StripLeftStarts(collapsed);
    StripRightKeepsStart(StripLeft(collapsed));
    var stripped := StripRight(StripLeft(collapsed));
    var slug := if stripped == "" then "sre-agent" else stripped;
    assert AllNameChars("sre-agent") && IsAlphanumeric("sre-agent"[0]);
    assert slug != "" && IsAlphanumeric(slug[0]) && AllNameChars(slug);
    var short := if |slug| > 36 then slug[..36] else slug;
    assert AllNameChars(short) && short[0] == slug[0];
    var name := ProjectName(lowered, identity);
    assert name == short + "-wt-" + identity;
    forall i | 0 <= i < |name|
      ensures IsNameChar(name[i])
    {
      if i < |short| {
        assert name[i] == short[i];
      } else if i < |short| + 4 {
        assert name[i] == "-wt-"[i - |short|];
      } else {
        assert name[i] == identity[i - |short| - 4];
      }
    }
  }

  /** How many characters from the start are letters or digits, or are none. */
  function Run(s: string, letters: bool): (n: nat)
    ensures n <= |s| && (n < |s| ==> IsAlphanumeric(s[n]) != letters)
    ensures forall i :: 0 <= i < n ==> IsAlphanumeric(s[i]) == letters
  {
    if s == "" || IsAlphanumeric(s[0]) != letters then 0 else 1 + Run(s[1..], letters)
  }

  /** The text from its first letter or digit on. */
  function Skip(s: string): string {
    s[Run(s, false)..]
  }

  /** The words of a name: its maximal runs of letters and digits. */
  function Words(s: string): seq<string>
    decreases |s|
  {
    var t := Skip(s);
    if t == "" then [] else [t[..Run(t, true)]] + Words(t[Run(t, true)..])
  }

  function Hyphenated(words: seq<string>): string {
    if words == [] then "" else if |words| == 1 then words[0] else words[0] + "-" + Hyphenated(words[1..])
  }

  lemma HyphenatedSplits(word: string, words: seq<string>)
    ensures Hyphenated([word] + words) == if words == [] then word else word + "-" + Hyphenated(words)
  {
    assert ([word] + words)[1..] == words;
  }

  predicate StartsWord(s: string) {
    s == "" || IsAlphanumeric(s[0])
  }

  lemma SkipIsStable(s: string)
    ensures StartsWord(Skip(s)) && Words(Skip(s)) == Words(s)
    ensures StartsWord(s) ==> Skip(s) == s
  {
    var t := Skip(s);
    assert t[0..] == t && s[0..] == s;
    assert Run(t, false) == 0;
  }

  /** A gap before a word becomes one hyphen, or none after one. */
  lemma {:induction false} CollapseSkips(s: string)
    ensures Collapse(s, true) == Collapse(Skip(s), false)
    ensures Collapse(s, false) == (if StartsWord(s) then "" else "-") + Collapse(Skip(s), false)
  {
    assert s[0..] == s;
    if !StartsWord(s) {
      CollapseSkips(s[1..]);
      assert s[1..][Run(s[1..], false)..] == s[Run(s, false)..];
    }
  }

  lemma {:induction false} CollapseKeepsWord(s: string)
    ensures Collapse(s, false) == s[..Run(s, true)] + Collapse(s[Run(s, true)..], false)
  {
    if s == "" || !IsAlphanumeric(s[0]) {
      assert s[0..] == s;
    } else {
      CollapseKeepsWord(s[1..]);
      assert s[1..][Run(s[1..], true)..] == s[Run(s, true)..];
      assert s[..Run(s, true)] == [s[0]] + s[1..][..Run(s[1..], true)];
    }
  }

  predicate EndsWord(s: string) {
    s != "" && IsAlphanumeric(s[|s| - 1])
  }

  /** What follows the first word, from the next one on. */
  function AfterWord(s: string): string {
    Skip(s[Run(s, true)..])
  }

  lemma FirstWord(s: string)
    requires s != "" && StartsWord(s)
    ensures |AfterWord(s)| < |s| && StartsWord(AfterWord(s))
    ensures Words(s) == [s[..Run(s, true)]] + Words(AfterWord(s))
    ensures EndsWord(s[..Run(s, true)])
  {
    SkipIsStable(s);
    SkipIsStable(s[Run(s, true)..]);
  }

  lemma CollapseFirstWord(s: string)
    requires s != "" && StartsWord(s)
    ensures Collapse(s, false) ==
      s[..Run(s, true)] + (if s[Run(s, true)..] == "" then "" else "-") + Collapse(AfterWord(s), false)
  {
    CollapseKeepsWord(s);
    CollapseSkips(s[Run(s, true)..]);
  }

  lemma LastWord(s: string)
    requires s != "" && StartsWord(s)
    ensures AfterWord(s) == "" ==> (EndsWord(s) <==> s[Run(s, true)..] == "")
    ensures AfterWord(s) != "" ==> (EndsWord(s) <==> EndsWord(AfterWord(s))) && s[Run(s, true)..] != ""
  {
    var rest := s[Run(s, true)..];
    var next := AfterWord(s);
    if next != "" {
      assert next[|next| - 1] == rest[|rest| - 1] == s[|s| - 1];
    } else if rest != "" {
      assert s[|s| - 1] == rest[|rest| - 1];
    }
  }

  lemma WordsExist(s: string)
    ensures Words(s) == [] <==> Skip(s) == ""
  {
  }

  lemma EndsAfter(a: string, b: string)
    requires EndsWord(b)
    ensures EndsWord(a + "-" + b)
  {
    var s := a + "-" + b;
    assert s[|s| - 1] == b[|b| - 1];
  }

  lemma Glue(whole: string, word: string, inner: string, h: string, tail: string)
    requires whole == word + "-" + inner && inner == h + tail
    ensures whole == (word + "-" + h) + tail
  {
  }

  /** The collapsed text is the words with hyphens, and a last hyphen if it goes on after the last. */
  predicate IsHyphenated(collapsed: string, words: seq<string>, closed: bool) {
    collapsed == Hyphenated(words) + (if closed then "" else "-") && EndsWord(Hyphenated(words))
  }

  lemma MoreWords(whole: string, word: string, inner: string, words: seq<string>, closed: bool)
    requires words != [] && whole == word + "-" + inner && IsHyphenated(inner, words, closed)
    ensures IsHyphenated(whole, [word] + words, closed)
  {
    HyphenatedSplits(word, words);
    EndsAfter(word, Hyphenated(words));
    Glue(whole, word, inner, Hyphenated(words), if closed then "" else "-");
  }

  lemma OneWord(word: string, closed: bool)
    requires EndsWord(word)
    ensures IsHyphenated(word + (if closed then "" else "-"), [word], closed)
  {
  }

  lemma {:induction false} CollapseIsHyphenated(s: string)
    requires s != "" && StartsWord(s)
    ensures IsHyphenated(Collapse(s, false), Words(s), EndsWord(s))
    decreases |s|
  {
    FirstWord(s);
    CollapseFirstWord(s);
    LastWord(s);
    var word, next := s[..Run(s, true)], AfterWord(s);
    if next == "" {
      OneWord(word, EndsWord(s));
      assert Words(s) == [word];
      assert Collapse(s, false) == word + (if EndsWord(s) then "" else "-");
    } else {
      SkipIsStable(next);
      WordsExist(next);
      CollapseIsHyphenated(next);
      MoreWords(Collapse(s, false), word, Collapse(next, false), Words(next), EndsWord(s));
    }
  }

  lemma StripRightDropsLast(s: string)
    requires EndsWord(s)
    ensures StripRight(s) == s && StripRight(s + "-") == s
  {
    assert (s + "-")[..|s|] == s;
  }

  lemma StripLeftDropsFirst(s: string)
    requires StartsWord(s)
    ensures StripLeft(s) == s && StripLeft("-" + s) == s
  {
    assert ("-" + s)[1..] == s;
  }

  lemma CollapsedStartsWord(s: string)
    requires StartsWord(s)
    ensures StartsWord(Collapse(s, false))
  {
  }

  lemma StripLeftSkips(s: string)
    ensures StripLeft(Collapse(s, false)) == Collapse(Skip(s), false)
  {
    SkipIsStable(s);
    CollapseSkips(s);
    CollapsedStartsWord(Skip(s));
    StripLeftDropsFirst(Collapse(Skip(s), false));
    assert "" + Collapse(Skip(s), false) == Collapse(Skip(s), false);
  }

  lemma StripRightCloses(collapsed: string, words: seq<string>, closed: bool)
    requires IsHyphenated(collapsed, words, closed)
    ensures StripRight(collapsed) == Hyphenated(words) != ""
  {
    StripRightDropsLast(Hyphenated(words));
    assert Hyphenated(words) + "" == Hyphenated(words);
  }

  lemma StrippedIsHyphenated(s: string)
    ensures StripRight(StripLeft(Collapse(s, false))) == Hyphenated(Words(s))
    ensures Words(s) != [] ==> Hyphenated(Words(s)) != ""
  {
    var t := Skip(s);
    SkipIsStable(s);
    WordsExist(s);
    StripLeftSkips(s);
    if t != "" {
      CollapseIsHyphenated(t);
      StripRightCloses(Collapse(t, false), Words(t), EndsWord(t));
    }
  }

  /** What the name is: the words of the directory's name with single hyphens between them, or
      `sre-agent` when it has none, cut to 36 characters, and the identity after `-wt-`. */
  lemma ProjectNameSays(lowered: string, identity: string)
    ensures var slug := if Words(lowered) == [] then "sre-agent" else Hyphenated(Words(lowered));
      ProjectName(lowered, identity) == (if |slug| > 36 then slug[..36] else slug) + "-wt-" + identity
  {
    StrippedIsHyphenated(lowered);
  }
}

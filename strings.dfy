/**
 * The few java.lang.String operations the modelled code relies on
 * (contains, startsWith, joining tokens with a separator), each with an
 * independent characterisation.
 */
module Strings {

  /** `s.startsWith(p)`. */
  predicate StartsWith(s: string, p: string)
  {
    |p| <= |s| && s[..|p|] == p
  }

  /** `t` occurs in `s` at offset `i`. */
  ghost predicate OccursAt(s: string, t: string, i: int)
  {
    0 <= i && i + |t| <= |s| && s[i..i + |t|] == t
  }

  /** `s.contains(t)`, by scanning offsets from the left. */
  predicate Contains(s: string, t: string)
    decreases |s|
  {
    StartsWith(s, t) || (|t| < |s| && Contains(s[1..], t))
  }

  /** `Contains` holds exactly when `t` occurs somewhere in `s`. */
  lemma {:induction false} ContainsIff(s: string, t: string)
    ensures Contains(s, t) <==> exists i :: OccursAt(s, t, i)
    decreases |s|
  {
    if StartsWith(s, t) {
      assert OccursAt(s, t, 0);
    } else if |t| < |s| {
      ContainsIff(s[1..], t);
      if Contains(s[1..], t) {
        var i :| OccursAt(s[1..], t, i);
        assert s[1..][i..i + |t|] == s[i + 1..i + 1 + |t|];
        assert OccursAt(s, t, i + 1);
      } else {
        forall i | OccursAt(s, t, i) ensures false {
          if i != 0 {
            assert s[1..][i - 1..i - 1 + |t|] == s[i..i + |t|];
            assert OccursAt(s[1..], t, i - 1);
          }
        }
      }
    }
  }

  /** Tokens joined by `sep`, built left to right as a StringBuilder would. */
  function Join(tokens: seq<string>, sep: char): string
    requires |tokens| >= 1
  {
    if |tokens| == 1 then tokens[0]
    else Join(tokens[..|tokens| - 1], sep) + [sep] + tokens[|tokens| - 1]
  }

  /** Splitting at every `sep`, the inverse of `Join` (String.split with limit -1). */
  function Split(s: string, sep: char): (r: seq<string>)
    ensures |r| >= 1
  {
    if s == [] then [""]
    else if s[|s| - 1] == sep then Split(s[..|s| - 1], sep) + [""]
    else
      var r := Split(s[..|s| - 1], sep);
      r[..|r| - 1] + [r[|r| - 1] + [s[|s| - 1]]]
  }

  /** Splitting `a + sep + t` where `t` holds no separator yields one more token. */
  lemma {:induction false} SplitAppend(a: string, sep: char, t: string)
    requires sep !in t
    ensures Split(a + [sep] + t, sep) == Split(a, sep) + [t]
    decreases |t|
  {
    if t == [] {
      var s := a + [sep];
      assert s[..|s| - 1] == a && s[|s| - 1] == sep;
      assert a + [sep] + t == s;
    } else {
      var t' := t[..|t| - 1];
      var s := a + [sep] + t;
      assert s[..|s| - 1] == a + [sep] + t';
      assert s[|s| - 1] == t[|t| - 1];
      SplitAppend(a, sep, t');
      assert t' + [t[|t| - 1]] == t;
    }
  }

  /** A string without separators splits into itself alone. */
  lemma {:induction false} SplitNoSep(t: string, sep: char)
    requires sep !in t
    ensures Split(t, sep) == [t]
    decreases |t|
  {
    if t != [] {
      var t' := t[..|t| - 1];
      SplitNoSep(t', sep);
      assert t' + [t[|t| - 1]] == t;
    }
  }

  /** Round trip: splitting a join gives back the tokens. */
  lemma {:induction false} SplitJoin(tokens: seq<string>, sep: char)
    requires |tokens| >= 1
    requires forall i :: 0 <= i < |tokens| ==> sep !in tokens[i]
    ensures Split(Join(tokens, sep), sep) == tokens
    decreases |tokens|
  {
    if |tokens| == 1 {
      SplitNoSep(tokens[0], sep);
    } else {
      var init := tokens[..|tokens| - 1];
      SplitJoin(init, sep);
      SplitAppend(Join(init, sep), sep, tokens[|tokens| - 1]);
      assert init + [tokens[|tokens| - 1]] == tokens;
    }
  }

  /** Length of a join: the tokens plus one separator between each pair. */
  lemma {:induction false} JoinLength(tokens: seq<string>, sep: char, k: nat)
    requires |tokens| >= 1
    requires forall i :: 0 <= i < |tokens| ==> |tokens[i]| == k
    ensures |Join(tokens, sep)| == |tokens| * (k + 1) - 1
    decreases |tokens|
  {
    if |tokens| > 1 {
      JoinLength(tokens[..|tokens| - 1], sep, k);
    }
  }
}

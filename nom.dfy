/** The pieces of the `nom` parser-combinator library that the text parsers are built from,
    over strings of characters: the `IResult` shape, `tag`, `tag_no_case`, `alt` over tags
    and `space0`. A parser takes the input and returns the unconsumed rest with its value, or
    an error carrying the input at which it failed. */
module Nom {
  import opened Wrappers

  /** The error kinds the parsers raise. */
  datatype ErrorKind = Tag | Digit | Fail

  /** `nom::error::Error`: the input at the failure and the kind of failure. */
  datatype Error = Error(input: string, code: ErrorKind)

  /** `IResult<&str, O>`: `Ok((rest, value))` or an error. */
  type IResult<O> = Result<(string, O), Error>

  /** `rest` is what remains of `s` after some prefix of it has been consumed. */
  predicate IsSuffix(rest: string, s: string)
  {
    |rest| <= |s| && rest == s[|s| - |rest|..]
  }

  /** A suffix of a suffix is a suffix. */
  lemma SuffixTrans(a: string, b: string, c: string)
    requires IsSuffix(a, b) && IsSuffix(b, c)
    ensures IsSuffix(a, c)
  {
    assert c[|c| - |b|..][|b| - |a|..] == c[|c| - |a|..];
  }

  /** The parser consumed at least one character, or failed. */
  predicate Consumes<O>(r: IResult<O>, s: string)
  {
    r.Ok? ==> IsSuffix(r.value.0, s) && |r.value.0| < |s|
  }

  /** `r` is the result of `s` with the value replaced by `v` (`map(|(i, _)| (i, v))`). */
  function MapValue<A, B>(r: IResult<A>, v: B): (q: IResult<B>)
    ensures q.Ok? <==> r.Ok?
    ensures q.Ok? ==> q.value.0 == r.value.0 && q.value.1 == v
    ensures q.Err? ==> q.error == r.error
  {
    match r
    case Ok((i, _)) => Ok((i, v))
    case Err(e) => Err(e)
  }

  // ---------------------------------------------------------------------------------------------
  // tag and tag_no_case

  /** `tag(t)`: the input starts with exactly `t`. */
  function MatchTag(t: string, s: string): (r: IResult<string>)
    ensures r.Ok? <==> t <= s
    ensures r.Ok? ==> r.value.1 == t && t + r.value.0 == s
    ensures r.Err? ==> r.error == Error(s, Tag)
  {
    if |t| <= |s| && s[..|t|] == t then
      assert s == t + s[|t|..];
      Ok((s[|t|..], t))
    else Err(Error(s, Tag))
  }

  /** ASCII lower-casing: `A`..`Z` to `a`..`z`, every other character unchanged. */
  function Lower(c: char): (r: char)
    ensures 'A' <= c <= 'Z' ==> 'a' <= r <= 'z' && r as int == c as int + 32
    ensures !('A' <= c <= 'Z') ==> r == c
  {
    if 'A' <= c <= 'Z' then (c as int + 32) as char else c
  }

  /** `s` starts with `t` up to the case of ASCII letters. */
  predicate PrefixNoCase(t: string, s: string)
    decreases |t|
  {
    |t| <= |s| && (t == [] || (Lower(t[0]) == Lower(s[0]) && PrefixNoCase(t[1..], s[1..])))
  }

  /** The recursive prefix test is the pointwise one. */
  lemma {:induction false} PrefixNoCaseAt(t: string, s: string)
    ensures PrefixNoCase(t, s) <==> |t| <= |s| && forall i :: 0 <= i < |t| ==> Lower(t[i]) == Lower(s[i])
    decreases |t|
  {
    if t != [] && |t| <= |s| {
      PrefixNoCaseAt(t[1..], s[1..]);
      if Lower(t[0]) == Lower(s[0]) && PrefixNoCase(t[1..], s[1..]) {
        forall i | 0 <= i < |t|
          ensures Lower(t[i]) == Lower(s[i])
        {
          if i > 0 {
            assert t[1..][i - 1] == t[i] && s[1..][i - 1] == s[i];
          }
        }
      }
      if forall i :: 0 <= i < |t| ==> Lower(t[i]) == Lower(s[i]) {
        forall i | 0 <= i < |t| - 1
          ensures Lower(t[1..][i]) == Lower(s[1..][i])
        {
          assert Lower(t[i + 1]) == Lower(s[i + 1]);
        }
      }
    }
  }

  /** An exact prefix is in particular a prefix up to case. */
  lemma {:induction false} PrefixIsPrefixNoCase(t: string, s: string)
    requires t <= s
    ensures PrefixNoCase(t, s)
    decreases |t|
  {
    if t != [] {
      assert t[1..] <= s[1..];
      PrefixIsPrefixNoCase(t[1..], s[1..]);
    }
  }

  /** A case-insensitive prefix of a word's case-insensitive prefix is one of the word too,
      so the first letter matches wherever the whole word does. */
  lemma {:induction false} PrefixNoCaseOfPrefix(t: string, s: string, n: nat)
    requires n <= |t|
    ensures PrefixNoCase(t, s) ==> PrefixNoCase(t[..n], s)
    decreases n
  {
    if n > 0 && PrefixNoCase(t, s) {
      assert t[..n][1..] == t[1..][..n - 1];
      PrefixNoCaseOfPrefix(t[1..], s[1..], n - 1);
    }
  }

  /** A one-letter tag matches when the first character agrees up to case. */
  lemma PrefixNoCaseOne(c: char, s: string)
    ensures PrefixNoCase([c], s) <==> s != [] && Lower(c) == Lower(s[0])
  {
    assert [c][1..] == [];
  }

  /** `tag_no_case(t)`: the input starts with `t` up to case; the value is the matched part of
      the input, as written there. */
  function TagNoCase(t: string, s: string): (r: IResult<string>)
    ensures r.Ok? <==> PrefixNoCase(t, s)
    ensures r.Ok? ==> |r.value.1| == |t| && r.value.1 + r.value.0 == s
    ensures r.Err? ==> r.error == Error(s, Tag)
  {
    if PrefixNoCase(t, s) then
      assert s == s[..|t|] + s[|t|..];
      Ok((s[|t|..], s[..|t|]))
    else Err(Error(s, Tag))
  }

  // ---------------------------------------------------------------------------------------------
  // alt over tags

  /** `alt((tag(t0), tag(t1), ..))`: the first tag that matches; when none does, the last
      alternative's error, which is a `Tag` error at the same input. */
  function AltTag(tags: seq<string>, s: string): (r: IResult<string>)
    requires tags != []
    ensures r.Err? <==> forall t :: t in tags ==> !(t <= s)
    ensures r.Ok? ==> r.value.1 in tags && r.value.1 + r.value.0 == s
    ensures r.Err? ==> r.error == Error(s, Tag)
    decreases |tags|
  {
    match MatchTag(tags[0], s)
    case Ok(v) => assert tags[0] in tags; Ok(v)
    case Err(e) =>
      if |tags| == 1 then Err(e)
      else
        assert forall t :: t in tags <==> t == tags[0] || t in tags[1..];
        AltTag(tags[1..], s)
  }

  /** `alt((tag_no_case(t0), tag_no_case(t1), ..))`. */
  function AltTagNoCase(tags: seq<string>, s: string): (r: IResult<string>)
    requires tags != []
    ensures r.Err? <==> forall t :: t in tags ==> !PrefixNoCase(t, s)
    ensures r.Ok? ==> r.value.1 + r.value.0 == s
    ensures r.Ok? ==> exists i :: 0 <= i < |tags| && FirstMatch(tags, s, i) && |r.value.1| == |tags[i]|
    ensures r.Err? ==> r.error == Error(s, Tag)
    decreases |tags|, 0
  {
    match TagNoCase(tags[0], s)
    case Ok(v) => assert tags[0] in tags && FirstMatch(tags, s, 0); Ok(v)
    case Err(e) =>
      if |tags| == 1 then Err(e)
      else
        assert forall t :: t in tags <==> t == tags[0] || t in tags[1..];
        FirstMatchShift(tags[0], tags[1..], s);
        assert [tags[0]] + tags[1..] == tags;
        AltTagNoCase(tags[1..], s)
  }

  /** When the first tag does not match, the first match among the others is the first match
      of all. */
  lemma FirstMatchShift(t: string, ts: seq<string>, s: string)
    requires ts != [] && !PrefixNoCase(t, s)
    ensures var r := AltTagNoCase(ts, s);
            r.Ok? ==> exists i :: 0 <= i < |[t] + ts| && FirstMatch([t] + ts, s, i) && |r.value.1| == |([t] + ts)[i]|
    decreases |ts|, 1
  {
    var r := AltTagNoCase(ts, s);
    if r.Ok? {
      var i :| 0 <= i < |ts| && FirstMatch(ts, s, i) && |r.value.1| == |ts[i]|;
      var all := [t] + ts;
      assert all[i + 1] == ts[i];
      forall j | 0 <= j < i + 1
        ensures !PrefixNoCase(all[j], s)
      {
        if j > 0 {
          assert all[j] == ts[j - 1];
        }
      }
      assert FirstMatch(all, s, i + 1);
    }
  }

  /** `tags[i]` is the first of the tags that `s` starts with, up to case. */
  predicate FirstMatch(tags: seq<string>, s: string, i: nat)
    requires i < |tags|
  {
    PrefixNoCase(tags[i], s) && forall j :: 0 <= j < i ==> !PrefixNoCase(tags[j], s)
  }

  /** An alternative of `k` words followed by one-character tags: the input left is after the
      first word that matches, or after one character when no word does. */
  lemma WordsThenLetters(tags: seq<string>, k: nat, s: string)
    requires 1 <= k <= |tags| && forall i :: k <= i < |tags| ==> |tags[i]| == 1
    ensures var r := AltTagNoCase(tags, s);
            r.Ok? ==> (exists i :: 0 <= i < k && FirstMatch(tags, s, i) && r.value.0 == s[|tags[i]|..]) ||
                      ((forall j :: 0 <= j < k ==> !PrefixNoCase(tags[j], s)) && r.value.0 == s[1..])
  {
    var r := AltTagNoCase(tags, s);
    if r.Ok? {
      var i :| 0 <= i < |tags| && FirstMatch(tags, s, i) && |r.value.1| == |tags[i]|;
      assert s[|r.value.1|..] == r.value.0 by {
        assert s == r.value.1 + r.value.0;
      }
    }
  }

  /** An alternative of non-empty tags consumes at least one character. */
  lemma AltTagNoCaseConsumes(tags: seq<string>, s: string)
    requires tags != [] && forall t :: t in tags ==> t != []
    ensures Consumes(AltTagNoCase(tags, s), s)
  {
    var r := AltTagNoCase(tags, s);
    if r.Ok? {
      var i :| 0 <= i < |tags| && FirstMatch(tags, s, i) && |r.value.1| == |tags[i]|;
      assert tags[i] in tags;
      assert s[|s| - |r.value.0|..] == r.value.0 by {
        assert s == r.value.1 + r.value.0;
      }
    }
  }

  // ---------------------------------------------------------------------------------------------
  // space0

  predicate IsSpace(c: char)
  {
    c == ' ' || c == '\t'
  }

  /** `space0`: skips the leading spaces and tabs; it never fails. */
  function Space0(s: string): (rest: string)
    ensures IsSuffix(rest, s)
    ensures rest == [] || !IsSpace(rest[0])
    ensures forall i :: 0 <= i < |s| - |rest| ==> IsSpace(s[i])
    decreases |s|
  {
    if s != [] && IsSpace(s[0]) then
      var rest := Space0(s[1..]);
      assert forall i :: 1 <= i < |s| - |rest| ==> s[i] == s[1..][i - 1];
      rest
    else s
  }

  /** Text that does not start with a space or tab is left alone. */
  lemma Space0NoSpace(s: string)
    requires s == [] || !IsSpace(s[0])
    ensures Space0(s) == s
  {
  }

  /** `space0` skips exactly a run of spaces and tabs put in front of text that does not start
      with one. */
  lemma {:induction false} Space0Skips(sp: string, t: string)
    requires forall i :: 0 <= i < |sp| ==> IsSpace(sp[i])
    requires t == [] || !IsSpace(t[0])
    ensures Space0(sp + t) == t
    decreases |sp|
  {
    if sp == [] {
      assert sp + t == t;
    } else {
      assert (sp + t)[1..] == sp[1..] + t;
      assert forall i :: 0 <= i < |sp[1..]| ==> sp[1..][i] == sp[i + 1];
      Space0Skips(sp[1..], t);
    }
  }

  /** Spaces and tabs in front of any text are skipped along with the text's own. */
  lemma {:induction false} Space0AfterSpaces(sp: string, s: string)
    requires forall i :: 0 <= i < |sp| ==> IsSpace(sp[i])
    ensures Space0(sp + s) == Space0(s)
    decreases |sp|
  {
    if sp == [] {
      assert sp + s == s;
    } else {
      assert (sp + s)[1..] == sp[1..] + s;
      assert forall i :: 0 <= i < |sp[1..]| ==> sp[1..][i] == sp[i + 1];
      Space0AfterSpaces(sp[1..], s);
    }
  }
}

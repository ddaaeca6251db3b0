/** Parsing of the `--tags` command-line option: the comma-separated string becomes
    the ordered list of tags, each trimmed, the blank ones dropped. */
module Tags {
  import opened Text

  /** What a parsed tag always is: non-blank, trimmed, free of commas. */
  predicate IsTag(t: string) {
    |t| > 0 && IsStripped(t) && ',' !in t
  }

  /** The list comprehension over the pieces: strip each one and keep it when
      the stripped piece is non-empty. */
  function Tidy(pieces: seq<string>): (r: seq<string>)
    ensures |r| <= |pieces|
    ensures forall i :: 0 <= i < |r| ==> |r[i]| > 0 && IsStripped(r[i])
  {
    if |pieces| == 0 then []
    else
      var t := Strip(pieces[0]);
      (if t == "" then [] else [t]) + Tidy(pieces[1..])
  }

  /** Stripping adds no characters, so comma-free pieces give comma-free tags. */
  lemma {:induction false} TidyCommaFree(pieces: seq<string>)
    requires forall i :: 0 <= i < |pieces| ==> ',' !in pieces[i]
    ensures forall i :: 0 <= i < |Tidy(pieces)| ==> ',' !in Tidy(pieces)[i]
  {
    if |pieces| > 0 {
      StripKeepsOut(pieces[0], ',');
      TidyCommaFree(pieces[1..]);
    }
  }

  /** The tags of `raw`, as `[tag.strip() for tag in raw.split(',') if tag.strip()]`
      computes them: every tag is non-blank, trimmed and comma-free, and there are
      at most as many tags as there are commas plus one. */
  function ParseTags(raw: string): (tags: seq<string>)
    ensures forall i :: 0 <= i < |tags| ==> IsTag(tags[i])
    ensures |tags| <= Count(raw, ',') + 1
  {
    TidyCommaFree(Split(raw, ','));
    Tidy(Split(raw, ','))
  }

  /** The option's default, the empty string, gives no tags. */
  lemma ParseTagsDefault()
    ensures ParseTags("") == []
  {
  }

  /** One comma-free piece gives its stripped text, or nothing when it is blank. */
  lemma ParseTagsPiece(p: string)
    requires ',' !in p
    ensures ParseTags(p) == if Strip(p) == "" then [] else [Strip(p)]
  {
    SplitSingle(p, ',');
  }

  lemma {:induction false} TidyConcat(xs: seq<string>, ys: seq<string>)
    ensures Tidy(xs + ys) == Tidy(xs) + Tidy(ys)
  {
    if |xs| == 0 {
      assert xs + ys == ys;
    } else {
      assert (xs + ys)[0] == xs[0] && (xs + ys)[1..] == xs[1..] + ys;
      TidyConcat(xs[1..], ys);
    }
  }

  /** Tags keep their order: the tags left of a comma come before those right of it. */
  lemma ParseTagsConcat(a: string, b: string)
    ensures ParseTags(a + [','] + b) == ParseTags(a) + ParseTags(b)
  {
    SplitConcat(a, ',', b);
    TidyConcat(Split(a, ','), Split(b, ','));
  }

  /** A well-formed tag parses to itself. */
  lemma ParseTagsOne(t: string)
    requires IsTag(t)
    ensures ParseTags(t) == [t]
  {
    ParseTagsPiece(t);
    assert "" + t + "" == t;
    StripOf("", t, "");
  }

  /** Joining well-formed tags with commas and parsing the result gives them back. */
  lemma {:induction false} ParseTagsJoin(tags: seq<string>)
    requires forall i :: 0 <= i < |tags| ==> IsTag(tags[i])
    ensures ParseTags(Join(',', tags)) == tags
  {
    if |tags| == 1 {
      ParseTagsOne(tags[0]);
    } else if |tags| > 1 {
      ParseTagsJoin(tags[1..]);
      JoinStep(tags);
    }
  }

  lemma JoinStep(tags: seq<string>)
    requires |tags| > 1 && IsTag(tags[0])
    requires ParseTags(Join(',', tags[1..])) == tags[1..]
    ensures ParseTags(Join(',', tags)) == tags
  {
    JoinUnfold(tags);
    ParseTagsCons(tags[0], Join(',', tags[1..]));
    assert [tags[0]] + tags[1..] == tags;
  }

  lemma JoinUnfold(parts: seq<string>)
    requires |parts| > 1
    ensures Join(',', parts) == parts[0] + [','] + Join(',', parts[1..])
  {
  }

  lemma ParseTagsCons(t: string, rest: string)
    requires IsTag(t)
    ensures ParseTags(t + [','] + rest) == [t] + ParseTags(rest)
  {
    ParseTagsOne(t);
    ParseTagsConcat(t, rest);
  }

  /** Parsing is idempotent on its own output. */
  lemma ParseTagsStable(raw: string)
    ensures ParseTags(Join(',', ParseTags(raw))) == ParseTags(raw)
  {
    ParseTagsJoin(ParseTags(raw));
  }
}

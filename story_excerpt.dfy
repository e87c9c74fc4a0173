/** The excerpt shown on the "story of the day" card (`src/components/StoryOfTheDay.tsx`):
    `contentHtml.replace(/<[^>]*>/g, '').substring(0, 150) + '...'`. */
module StoryExcerpt {
  import opened JsString

  const EXCERPT_LENGTH := 150
  const ELLIPSIS := "..."

  /** No `>` comes anywhere after a `<`: the text holds nothing `<[^>]*>` can match. */
  ghost predicate TagFree(s: string) {
    forall i, j :: 0 <= i < j < |s| && s[i] == '<' ==> s[j] != '>'
  }

  /** The first `>` at or after `k`. */
  function NextGt(s: string, k: nat): (r: nat)
    requires k <= |s|
    decreases |s| - k
    ensures k <= r <= |s|
    ensures r < |s| ==> s[r] == '>'
    ensures forall j :: k <= j < r ==> s[j] != '>'
  {
    if k == |s| || s[k] == '>' then k else NextGt(s, k + 1)
  }

  /** `s.replace(/<[^>]*>/g, '')`: scanning left to right, a `<` that has a `>` somewhere
      after it is removed together with everything up to and including the first such
      `>`; every other character is kept. */
  function StripTags(s: string): (r: string)
    decreases |s|
    ensures |r| <= |s|
    ensures forall i :: 0 <= i < |r| ==> r[i] in s
    ensures TagFree(r)
  {
    if s == [] then ""
    else
      var gt := NextGt(s, 1);
      if s[0] == '<' && gt < |s| then
        var r := StripTags(s[gt + 1..]);
        assert forall i :: 0 <= i < |r| ==> r[i] in s by {
          forall i | 0 <= i < |r| ensures r[i] in s {
            assert r[i] in s[gt + 1..];
          }
        }
        r
      else
        var rest := StripTags(s[1..]);
        assert forall i :: 0 <= i < |rest| ==> rest[i] in s by {
          forall i | 0 <= i < |rest| ensures rest[i] in s {
            assert rest[i] in s[1..];
          }
        }
        assert s[0] == '<' ==> forall i :: 0 <= i < |rest| ==> rest[i] != '>' by {
          if s[0] == '<' {
            forall i | 0 <= i < |rest| ensures rest[i] != '>' {
              assert rest[i] in s[1..];
            }
          }
        }
        [s[0]] + rest
  }

  /** Text with no tag in it passes through unchanged. */
  lemma {:induction false} StripTagsKeepsTagFree(s: string)
    requires TagFree(s)
    ensures StripTags(s) == s
    decreases |s|
  {
    if s != [] {
      var gt := NextGt(s, 1);
      if s[0] == '<' && gt < |s| {
        assert false;
      }
      assert TagFree(s[1..]) by {
        forall i, j | 0 <= i < j < |s[1..]| && s[1..][i] == '<' ensures s[1..][j] != '>' {
          assert s[i + 1] == '<';
        }
      }
      StripTagsKeepsTagFree(s[1..]);
      assert s == [s[0]] + s[1..];
    }
  }

  /** Stripping tags twice is the same as stripping them once. */
  lemma StripTagsIdempotent(s: string)
    ensures StripTags(StripTags(s)) == StripTags(s)
  {
    StripTagsKeepsTagFree(StripTags(s));
  }

  /** A first character other than `<` is kept. */
  lemma StripKeepsFirst(s: string)
    requires s != [] && s[0] != '<'
    ensures StripTags(s) == [s[0]] + StripTags(s[1..])
  {
  }

  /** A stretch of text holding no `<` survives, as it is and in place, ahead of whatever
      the rest strips to. */
  lemma {:induction false} StripKeepsText(a: string, rest: string)
    requires '<' !in a
    ensures StripTags(a + rest) == a + StripTags(rest)
    decreases |a|
  {
    if a == [] {
      assert a + rest == rest;
    } else {
      var s := a + rest;
      assert s[0] == a[0] && a[0] in a;
      assert s[1..] == a[1..] + rest;
      assert a == [a[0]] + a[1..];
      StripKeepsFirst(s);
      StripKeepsText(a[1..], rest);
    }
  }

  /** A complete tag: `<`, any characters but `>`, then `>`. */
  ghost predicate IsTag(t: string) {
    |t| >= 2 && t[0] == '<' && t[|t| - 1] == '>' && forall i :: 0 < i < |t| - 1 ==> t[i] != '>'
  }

  /** A tag at the front disappears. */
  lemma StripLeadingTag(tag: string, rest: string)
    requires IsTag(tag)
    ensures StripTags(tag + rest) == StripTags(rest)
  {
    var s := tag + rest;
    assert s[0] == '<';
    assert forall i :: 0 <= i < |tag| ==> s[i] == tag[i];
    assert NextGt(s, 1) == |tag| - 1;
    assert s[|tag|..] == rest;
  }

  function Concat(parts: seq<string>): string {
    if parts == [] then "" else parts[0] + Concat(parts[1..])
  }

  /** `.substring(0, 150)`: the first 150 characters, or all of a shorter text. */
  function Truncate(s: string, n: nat): (r: string)
    ensures |r| == if |s| < n then |s| else n
    ensures StartsWith(s, r)
  {
    if |s| < n then s else s[..n]
  }

  /** The excerpt on the card. */
  function Excerpt(contentHtml: string): (r: string)
    ensures EndsWith(r, ELLIPSIS)
    ensures |r| <= EXCERPT_LENGTH + |ELLIPSIS|
    ensures var text := StripTags(contentHtml);
      && StartsWith(text, r[..|r| - |ELLIPSIS|])
      && |r| - |ELLIPSIS| == if |text| < EXCERPT_LENGTH then |text| else EXCERPT_LENGTH
  {
    var r := Truncate(StripTags(contentHtml), EXCERPT_LENGTH) + ELLIPSIS;
    assert r[..|r| - |ELLIPSIS|] == Truncate(StripTags(contentHtml), EXCERPT_LENGTH);
    r
  }

  /** Content made of tags alone, the empty content included, gives the bare ellipsis. */
  lemma {:induction false} TagsOnlyExcerpt(tags: seq<string>)
    requires forall i :: 0 <= i < |tags| ==> IsTag(tags[i])
    ensures StripTags(Concat(tags)) == ""
    ensures Excerpt(Concat(tags)) == ELLIPSIS
  {
    if tags != [] {
      TagsOnlyExcerpt(tags[1..]);
      StripLeadingTag(tags[0], Concat(tags[1..]));
    }
  }
}

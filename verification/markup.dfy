/** Plain-text rendering of the HTML fragments the catalogue stores in show
    summaries, and the joining of string lists for display. */
module Markup {
  import opened Shows

  /** A string is tag-free when no '<' in it is followed, anywhere later, by
      a '>': no `<…>` run is left to delete. */
  predicate TagFree(s: string) {
    forall i, j :: 0 <= i < j < |s| && s[i] == '<' ==> s[j] != '>'
  }

  /** What is left after the first '>' of `s`. */
  function DropThrough(s: string): (r: string)
    requires '>' in s
    ensures |r| < |s| && r == s[|s| - |r|..]
    ensures forall c :: c in r ==> c in s
  {
    if s[0] == '>' then s[1..] else DropThrough(s[1..])
  }

  /** Removes, scanning left to right, every run that starts with '<' and
      ends at the next '>'; a '<' with no '>' after it is kept, and so is
      every character outside a run, in order. */
  function StripTags(s: string): (r: string)
    ensures |r| <= |s|
    ensures forall c :: c in r ==> c in s
    ensures TagFree(r)
  {
    if |s| == 0 then ""
    else if s[0] == '<' && '>' in s[1..] then StripTags(DropThrough(s[1..]))
    else
      var rest := StripTags(s[1..]);
      assert forall c :: c in rest ==> c in s[1..];
      [s[0]] + rest
  }

  lemma DropThroughIsSuffix(s: string)
    requires |s| > 0 && '>' in s[1..]
    ensures DropThrough(s[1..]) == s[|s| - |DropThrough(s[1..])|..]
  {
    var d := DropThrough(s[1..]);
    assert s[1..][|s[1..]| - |d|..] == s[|s| - |d|..];
  }

  /** Stripping only deletes: what is kept keeps its order. */
  lemma {:induction false} StripTagsSubsequence(s: string)
    ensures Subsequence(StripTags(s), s)
  {
    if |s| > 0 {
      if s[0] == '<' && '>' in s[1..] {
        var d := DropThrough(s[1..]);
        StripTagsSubsequence(d);
        DropThroughIsSuffix(s);
        SubsequenceOfSuffix(StripTags(d), s, |s| - |d|);
      } else {
        var rest := StripTags(s[1..]);
        StripTagsSubsequence(s[1..]);
        assert ([s[0]] + rest)[1..] == rest;
      }
    }
  }

  /** Text that holds no tag run, in particular text without any '<', is
      returned unchanged. */
  lemma {:induction false} TagFreeUnchanged(s: string)
    requires TagFree(s)
    ensures StripTags(s) == s
  {
    if |s| > 0 {
      assert TagFree(s[1..]) by {
        forall i, j | 0 <= i < j < |s[1..]| && s[1..][i] == '<' ensures s[1..][j] != '>' {
          assert s[i + 1] == s[1..][i] && s[j + 1] == s[1..][j];
        }
      }
      TagFreeUnchanged(s[1..]);
      if s[0] == '<' {
        assert '>' !in s[1..] by {
          forall j | 0 <= j < |s[1..]| ensures s[1..][j] != '>' {
            assert s[j + 1] == s[1..][j];
          }
        }
      }
      assert s == [s[0]] + s[1..];
    }
  }

  lemma NoOpenBracketUnchanged(s: string)
    requires '<' !in s
    ensures StripTags(s) == s
  {
    TagFreeUnchanged(s);
  }

  /** Stripping twice is stripping once. */
  lemma StripTagsIdempotent(s: string)
    ensures StripTags(StripTags(s)) == StripTags(s)
  {
    TagFreeUnchanged(StripTags(s));
  }

  lemma {:induction false} DropThroughFirst(body: string, rest: string)
    requires '>' !in body
    ensures '>' in body + ">" + rest
    ensures DropThrough(body + ">" + rest) == rest
  {
    var s := body + ">" + rest;
    assert s[|body|] == '>';
    if |body| > 0 {
      assert body[0] != '>';
      assert s[1..] == body[1..] + ">" + rest;
      DropThroughFirst(body[1..], rest);
    } else {
      assert s[1..] == rest;
    }
  }

  /** A run with no '>' inside vanishes with its delimiters. */
  lemma StripRun(body: string, rest: string)
    requires '>' !in body
    ensures StripTags("<" + body + ">" + rest) == StripTags(rest)
  {
    var s := "<" + body + ">" + rest;
    assert s[1..] == body + ">" + rest;
    DropThroughFirst(body, rest);
  }

  /** A character other than '<' is kept in front of what follows. */
  lemma StripKeep(c: char, rest: string)
    requires c != '<'
    ensures StripTags([c] + rest) == [c] + StripTags(rest)
  {
    assert ([c] + rest)[1..] == rest;
  }

  /** Text without '<' passes through in front of whatever follows it. */
  lemma {:induction false} StripPlainPrefix(text: string, rest: string)
    requires '<' !in text
    ensures StripTags(text + rest) == text + StripTags(rest)
  {
    if |text| > 0 {
      assert text + rest == [text[0]] + (text[1..] + rest);
      StripKeep(text[0], text[1..] + rest);
      StripPlainPrefix(text[1..], rest);
      assert text == [text[0]] + text[1..];
    } else {
      assert text + rest == rest;
    }
  }

  /** The first run after plain text goes, up to its first '>', even when
      the run itself holds further '<'. */
  lemma StripFirstRun(text: string, body: string, rest: string)
    requires '<' !in text && '>' !in body
    ensures StripTags(text + "<" + body + ">" + rest) == text + StripTags(rest)
  {
    assert text + "<" + body + ">" + rest == text + ("<" + body + ">" + rest);
    StripPlainPrefix(text, "<" + body + ">" + rest);
    StripRun(body, rest);
  }

  /** An element wrapping plain text loses exactly its two tags. */
  lemma StripElement(tag: string, text: string)
    requires '>' !in tag && '<' !in text
    ensures StripTags("<" + tag + ">" + text + "</" + tag + ">") == text
  {
    var closing := "/" + tag;
    assert '>' !in closing by { assert closing == ['/'] + tag; }
    assert "<" + tag + ">" + text + "</" + tag + ">" == "" + "<" + tag + ">" + (text + "<" + closing + ">" + "");
    StripFirstRun("", tag, text + "<" + closing + ">" + "");
    StripFirstRun(text, closing, "");
    assert text + "" == text;
  }

  /** Text without any '>' holds no run, so every '<' in it survives. */
  lemma NoCloseUnchanged(s: string)
    requires '>' !in s
    ensures StripTags(s) == s
  {
    TagFreeUnchanged(s);
  }

  /** The elements of `xs` with `sep` between each adjacent pair. */
  function Join(xs: seq<string>, sep: string): (r: string)
    ensures |xs| == 0 ==> r == ""
    ensures |xs| == 1 ==> r == xs[0]
  {
    if |xs| == 0 then ""
    else if |xs| == 1 then xs[0]
    else xs[0] + sep + Join(xs[1..], sep)
  }

  /** Joining a concatenation is joining the parts around one more separator. */
  lemma {:induction false} JoinConcat(a: seq<string>, b: seq<string>, sep: string)
    requires |a| > 0 && |b| > 0
    ensures Join(a + b, sep) == Join(a, sep) + sep + Join(b, sep)
  {
    if |a| == 1 {
      assert (a + b)[1..] == b;
    } else {
      assert (a + b)[1..] == a[1..] + b;
      JoinConcat(a[1..], b, sep);
    }
  }
}

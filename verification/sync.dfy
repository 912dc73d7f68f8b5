/**
  `ModifyMusicOffset` of GameManager.cs keeps one `name:offset` line per
  song in a text file. The lines are searched from the last one toward the
  first for one starting with `name:`, ignoring case; that line is
  replaced, and when the replacement would not change it the file is not
  written at all. With no such line, the entry is appended. Reading and
  writing the file are left to the caller: the model maps the lines read to
  the lines written, or to no write.
*/
module Sync {
  import opened Wrappers
  import opened Text

  /** `$"{name}:{startOffset}"`, with the offset already formatted. */
  function Entry(name: string, offset: string): string {
    name + ":" + offset
  }

  /** The line belongs to the song `name`. */
  predicate Matches(line: string, name: string) {
    StartsWithIgnoreCase(line, name + ":")
  }

  /** An entry always belongs to its own song. */
  lemma EntryMatches(name: string, offset: string)
    ensures Matches(Entry(name, offset), name)
  {
    assert (name + ":" + offset)[..|name| + 1] == name + ":";
  }

  /** The loop from `lines.Count - 1` down to 0: the last matching line. */
  function LastMatch(lines: seq<string>, name: string): (r: Option<nat>)
    ensures r.Some? ==> r.value < |lines| && Matches(lines[r.value], name)
    ensures r.Some? ==> forall j :: r.value < j < |lines| ==> !Matches(lines[j], name)
    ensures r.None? ==> forall j :: 0 <= j < |lines| ==> !Matches(lines[j], name)
    decreases |lines|
  {
    if |lines| == 0 then None
    else if Matches(lines[|lines| - 1], name) then Some(|lines| - 1)
    else LastMatch(lines[..|lines| - 1], name)
  }

  /** `e` is the last line of the song in the file. */
  predicate LastEntryIs(lines: seq<string>, name: string, e: string) {
    exists i :: 0 <= i < |lines| && lines[i] == e && forall j :: i < j < |lines| ==> !Matches(lines[j], name)
  }

  /** The file after the call: left alone, or rewritten with these lines. */
  datatype Outcome = Unchanged | Write(lines: seq<string>)

  /** Only one matching line can have no matching line after it. */
  lemma LastMatchUnique(lines: seq<string>, name: string, i: nat)
    requires i < |lines| && Matches(lines[i], name)
    requires forall j :: i < j < |lines| ==> !Matches(lines[j], name)
    ensures LastMatch(lines, name) == Some(i)
  {
    var r := LastMatch(lines, name);
    assert r.Some?;
    assert !(r.value > i);
    assert !(r.value < i);
  }

  /** The rewrite of the song's offset line. */
  function ModifyOffset(lines: seq<string>, name: string, offset: string): (r: Outcome)
    ensures r.Unchanged? <==> LastEntryIs(lines, name, Entry(name, offset))
    ensures r.Write? ==> LastEntryIs(r.lines, name, Entry(name, offset))
    ensures r.Write? ==> |lines| <= |r.lines| <= |lines| + 1
    ensures r.Write? ==> forall j :: 0 <= j < |lines| ==> r.lines[j] == lines[j] || Matches(lines[j], name)
    ensures r.Write? ==> forall j, k :: 0 <= j < k < |lines| && r.lines[j] != lines[j] ==> r.lines[k] == lines[k]
    ensures (forall j :: 0 <= j < |lines| ==> !Matches(lines[j], name)) ==> r == Write(lines + [Entry(name, offset)])
    ensures r.Write? && (exists j :: 0 <= j < |lines| && Matches(lines[j], name)) ==> |r.lines| == |lines|
  {
    var e := Entry(name, offset);
    EntryMatches(name, offset);
    match LastMatch(lines, name)
    case None =>
      assert (lines + [e])[|lines|] == e;
      Write(lines + [e])
    case Some(i) =>
      if lines[i] == e then Unchanged
      else
        assert lines[i := e][i] == e;
        Write(lines[i := e])
  }

  /** Saving the same offset again leaves the file alone. */
  lemma ModifyOffsetIdempotent(lines: seq<string>, name: string, offset: string)
    ensures ModifyOffset(lines, name, offset).Write?
            ==> ModifyOffset(ModifyOffset(lines, name, offset).lines, name, offset) == Unchanged
  {
  }

  /** Song names that differ only in letter case match the same lines. */
  lemma MatchesIgnoresCase(line: string, a: string, b: string)
    requires Lower(a) == Lower(b)
    ensures Matches(line, a) <==> Matches(line, b)
  {
    assert |a| == |Lower(a)|;
    assert forall i :: 0 <= i < |a| + 1 ==> LowerChar((a + ":")[i]) == LowerChar((b + ":")[i]) by {
      forall i | 0 <= i < |a| + 1
        ensures LowerChar((a + ":")[i]) == LowerChar((b + ":")[i])
      {
        if i < |a| {
          assert Lower(a)[i] == Lower(b)[i];
        }
      }
    }
  }

  /** The search finds the same line whatever the letter case of the song
      name. */
  lemma {:induction false} LastMatchIgnoresCase(lines: seq<string>, a: string, b: string)
    requires Lower(a) == Lower(b)
    ensures LastMatch(lines, a) == LastMatch(lines, b)
    decreases |lines|
  {
    if |lines| > 0 {
      MatchesIgnoresCase(lines[|lines| - 1], a, b);
      LastMatchIgnoresCase(lines[..|lines| - 1], a, b);
    }
  }

  /** The last line of the song, when it differs from the new entry, is
      replaced by it in place; no other line changes and none is added. */
  lemma ModifyOffsetReplaces(lines: seq<string>, name: string, offset: string, i: nat)
    requires i < |lines| && Matches(lines[i], name)
    requires forall j :: i < j < |lines| ==> !Matches(lines[j], name)
    requires lines[i] != Entry(name, offset)
    ensures ModifyOffset(lines, name, offset) == Write(lines[i := Entry(name, offset)])
  {
    LastMatchUnique(lines, name, i);
  }

  /** Two spellings of one song name rewrite the same line, each taking its
      own spelling into the new entry. */
  lemma ModifyOffsetIgnoresCase(lines: seq<string>, a: string, b: string, offset: string)
    requires Lower(a) == Lower(b)
    ensures LastMatch(lines, a).Some? ==>
              ModifyOffset(lines, a, offset).Write? ==>
                ModifyOffset(lines, a, offset).lines == lines[LastMatch(lines, b).value := Entry(a, offset)]
  {
    LastMatchIgnoresCase(lines, a, b);
  }
}

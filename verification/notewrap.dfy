/**
 * The note wrapping the chart applies before drawing a note under a point:
 * `'\n'.join([note[k:k+5] for k in range(0, len(note), 5)])`, a line break
 * after every five characters.
 */
module NoteWrap {

  const Width: nat := 5

  /** `[note[k:k+5] for k in range(0, len(note), 5)]`. */
  function Chunks(note: string): (cs: seq<string>)
    ensures |cs| == (|note| + Width - 1) / Width
    ensures forall i :: 0 <= i < |cs| ==> 1 <= |cs[i]| <= Width
    ensures forall i :: 0 <= i < |cs| - 1 ==> |cs[i]| == Width
    decreases |note|
  {
    if |note| == 0 then []
    else if |note| <= Width then [note]
    else [note[..Width]] + Chunks(note[Width..])
  }

  /** `sep.join(parts)`. */
  function Join(sep: char, parts: seq<string>): string
    decreases |parts|
  {
    if |parts| == 0 then ""
    else if |parts| == 1 then parts[0]
    else parts[0] + [sep] + Join(sep, parts[1..])
  }

  /** The concatenation of `parts`, with nothing between them. */
  function Concat(parts: seq<string>): string
    decreases |parts|
  {
    if |parts| == 0 then "" else parts[0] + Concat(parts[1..])
  }

  /** The wrapped note as the chart draws it. */
  function Wrap(note: string): string {
    Join('\n', Chunks(note))
  }

  /** The note with every line break taken out. */
  function RemoveNewlines(s: string): (r: string)
    ensures |r| <= |s|
    ensures '\n' !in s ==> r == s
  {
    if |s| == 0 then ""
    else if s[0] == '\n' then RemoveNewlines(s[1..])
    else [s[0]] + RemoveNewlines(s[1..])
  }

  lemma {:induction false} RemoveNewlinesAppend(a: string, b: string)
    ensures RemoveNewlines(a + b) == RemoveNewlines(a) + RemoveNewlines(b)
    decreases |a|
  {
    if |a| > 0 {
      assert (a + b)[1..] == a[1..] + b;
      RemoveNewlinesAppend(a[1..], b);
    } else {
      assert a + b == b;
    }
  }

  /** Joining the chunks back together gives the note. */
  lemma {:induction false} ChunksConcat(note: string)
    ensures Concat(Chunks(note)) == note
    decreases |note|
  {
    if |note| > Width {
      ChunksConcat(note[Width..]);
      assert note == note[..Width] + note[Width..];
    }
  }

  /**
   * Wrapping only inserts line breaks: with every line break removed, the wrapped
   * note and the note are the same text. A note without line breaks comes back
   * as it was.
   */
  lemma {:induction false} WrapRemoveNewlines(note: string)
    ensures RemoveNewlines(Wrap(note)) == RemoveNewlines(note)
    ensures '\n' !in note ==> RemoveNewlines(Wrap(note)) == note
    decreases |note|
  {
    if |note| > Width {
      var head, rest := note[..Width], note[Width..];
      WrapRemoveNewlines(rest);
      WrapStep(note);
      RemoveNewlinesAround(head, Wrap(rest));
      RemoveNewlinesAppend(head, rest);
      assert note == head + rest;
    } else if |note| > 0 {
      assert Wrap(note) == note;
    }
  }

  /** A note longer than one line wraps to its first five characters, a break, and the wrapped rest. */
  lemma WrapStep(note: string)
    requires |note| > Width
    ensures Wrap(note) == note[..Width] + "\n" + Wrap(note[Width..])
  {
    assert Chunks(note)[1..] == Chunks(note[Width..]);
  }

  /** Removing line breaks drops a break put between two texts. */
  lemma RemoveNewlinesAround(a: string, b: string)
    ensures RemoveNewlines(a + "\n" + b) == RemoveNewlines(a) + RemoveNewlines(b)
  {
    assert RemoveNewlines("\n") == "";
    RemoveNewlinesAppend(a + "\n", b);
    RemoveNewlinesAppend(a, "\n");
  }

  /** A line break already in the note survives the wrap, so the note does not come back. */
  lemma BreakInNoteSurvives()
    ensures RemoveNewlines(Wrap("ab\ncd")) != "ab\ncd"
  {
    assert Chunks("ab\ncd") == ["ab\ncd"];
    assert RemoveNewlines("ab\ncd") == "abcd";
  }

  /**
   * The wrapped text has a line break at every sixth position and the note's
   * characters in order everywhere else, so no line is longer than five
   * characters. For a note without line breaks of its own, those are the only
   * breaks.
   */
  lemma {:induction false} WrapLayout(note: string)
    ensures |note| > 0 ==> |Wrap(note)| == |note| + (|note| - 1) / Width
    ensures forall i :: 0 <= i < |Wrap(note)| && i % 6 == 5 ==> Wrap(note)[i] == '\n'
    ensures forall i :: 0 <= i < |Wrap(note)| && i % 6 != 5 ==> Wrap(note)[i] == note[i - i / 6]
    ensures '\n' !in note ==> forall i :: 0 <= i < |Wrap(note)| ==> (Wrap(note)[i] == '\n' <==> i % 6 == 5)
    decreases |note|
  {
    var w := Wrap(note);
    if |note| > Width {
      var rest := note[Width..];
      WrapLayout(rest);
      var cs := Chunks(note);
      assert cs[1..] == Chunks(rest);
      var wr := Wrap(rest);
      assert w == note[..Width] + "\n" + wr;
      forall i | 0 <= i < |w|
        ensures i % 6 == 5 ==> w[i] == '\n'
        ensures i % 6 != 5 ==> w[i] == note[i - i / 6]
      {
        if i < 6 {
          if i < Width {
            assert w[i] == note[i];
          }
        } else {
          assert w[i] == wr[i - 6];
          assert (i - 6) % 6 == i % 6 && (i - 6) / 6 == i / 6 - 1;
          if i % 6 != 5 {
            assert wr[i - 6] == rest[(i - 6) - (i - 6) / 6];
          }
        }
      }
    } else if |note| > 0 {
      assert w == note;
      forall i | 0 <= i < |w|
        ensures i % 6 != 5 && w[i] == note[i - i / 6]
      {
        assert w[i] == note[i];
      }
    }
  }
}

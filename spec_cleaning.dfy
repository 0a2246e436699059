/**
 * Cleaning of the specification cell (`extract_after_colon`): each line is
 * stripped and, when it holds a full-width colon, only the stripped text after
 * its last full-width colon is kept.
 */
module SpecCleaning {
  import opened Text
  import opened Seqs

  /** U+FF1A FULLWIDTH COLON, the separator used by locale-prefixed specifications. */
  const FullWidthColon: char := '：'

  /** The rule applied to one line. */
  function CleanLine(line: string): string {
    var l := Strip(line);
    if FullWidthColon in l then Strip(Last(Split(l, FullWidthColon))) else l
  }

  /** The whole cleaned field: the empty string, or the cleaned lines joined by newlines. */
  function CleanSpec(text: string): string {
    if text == [] then [] else Join(CleanLines(Split(text, '\n')), '\n')
  }

  function CleanLines(lines: seq<string>): (r: seq<string>)
    ensures |r| == |lines|
    ensures forall i :: 0 <= i < |lines| ==> r[i] == CleanLine(lines[i])
  {
    seq(|lines|, i requires 0 <= i < |lines| => CleanLine(lines[i]))
  }

  /**
   * When the stripped line holds a colon, its cleaned form is the stripped
   * text after the last colon; otherwise it is the stripped line.
   */
  lemma CleanLineAfterLastColon(line: string)
    ensures var l := Strip(line);
      (FullWidthColon in l ==>
        exists k :: 0 <= k < |l| && l[k] == FullWidthColon && FullWidthColon !in l[k + 1..] &&
          CleanLine(line) == Strip(l[k + 1..])) &&
      (FullWidthColon !in l ==> CleanLine(line) == l)
  {
    var l := Strip(line);
    if FullWidthColon in l {
      var p := Last(Split(l, FullWidthColon));
      LastPartAfterLastSeparator(l, FullWidthColon);
      var k := |l| - |p| - 1;
      assert l[k + 1..] == p;
    }
  }

  /**
   * A cleaned line holds no colon and no character the line did not hold, and
   * is its own `strip()`.
   */
  lemma CleanLineChars(line: string)
    ensures FullWidthColon !in CleanLine(line)
    ensures forall c :: c in CleanLine(line) ==> c in line
    ensures Strip(CleanLine(line)) == CleanLine(line)
  {
    var l := Strip(line);
    StripIdempotent(line);
    StripChars(line);
    if FullWidthColon in l {
      var p := Last(Split(l, FullWidthColon));
      LastPartAfterLastSeparator(l, FullWidthColon);
      var k := |l| - |p| - 1;
      assert l[k + 1..] == p;
      assert forall c :: c in p ==> c in l by {
        forall c | c in p ensures c in l {
          var j :| 0 <= j < |p| && p[j] == c;
          assert l[k + 1 + j] == c;
        }
      }
      StripIdempotent(p);
      StripChars(p);
    }
  }

  /** Cleaned lines hold no colon, and no newline when the lines held none. */
  lemma CleanLinesFree(lines: seq<string>)
    requires forall p :: p in lines ==> '\n' !in p
    ensures forall p :: p in CleanLines(lines) ==> FullWidthColon !in p && '\n' !in p
  {
    forall i | 0 <= i < |lines|
      ensures FullWidthColon !in CleanLines(lines)[i] && '\n' !in CleanLines(lines)[i]
    {
      CleanLineChars(lines[i]);
      assert lines[i] in lines;
    }
  }

  /**
   * A non-empty field comes out with exactly as many lines as it went in, and
   * line i of the result is line i of the input, cleaned.
   */
  lemma CleanSpecLines(text: string)
    requires text != []
    ensures Split(CleanSpec(text), '\n') == CleanLines(Split(text, '\n'))
  {
    var lines := Split(text, '\n');
    SplitPartsFree(text, '\n');
    CleanLinesFree(lines);
    SplitJoin(CleanLines(lines), '\n');
  }

  /** No full-width colon survives cleaning, so no output line holds one. */
  lemma CleanSpecNoColon(text: string)
    ensures FullWidthColon !in CleanSpec(text)
  {
    if text != [] {
      var cleaned := CleanLines(Split(text, '\n'));
      SplitPartsFree(text, '\n');
      CleanLinesFree(Split(text, '\n'));
      if FullWidthColon in CleanSpec(text) {
        JoinChars(cleaned, '\n', FullWidthColon);
        assert false;
      }
    }
  }

  /** Cleaning a cleaned field changes nothing. */
  lemma CleanSpecIdempotent(text: string)
    ensures CleanSpec(CleanSpec(text)) == CleanSpec(text)
  {
    var r := CleanSpec(text);
    if text != [] && r != [] {
      var lines := Split(text, '\n');
      var cleaned := CleanLines(lines);
      CleanSpecLines(text);
      assert Split(r, '\n') == cleaned;
      forall i | 0 <= i < |cleaned| ensures CleanLine(cleaned[i]) == cleaned[i] {
        CleanLineChars(lines[i]);
      }
      assert CleanLines(cleaned) == cleaned;
    }
  }

  /**
   * `extract_after_colon`: split the field on newlines, clean each line into a
   * list of processed lines, and join them with newlines.
   */
  method ExtractAfterColon(text: string) returns (r: string)
    ensures r == CleanSpec(text)
  {
    if text == [] {
      return [];
    }
    var lines := Split(text, '\n');
    ghost var all := CleanLines(lines);
    var processed: seq<string> := [];
    for i := 0 to |lines|
      invariant processed == all[..i]
    {
      var line := CleanLine(lines[i]);
      PrefixStep(all, i);
      processed := processed + [line];
    }
    assert all[..|lines|] == all;
    r := Join(processed, '\n');
  }
}

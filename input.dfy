/**
 * Reading the user's input: the free-text list of announcement identifiers
 * and each identifier's split into an announcement number and an ordinal.
 */
module Input {
  import opened Text

  /** An announcement number (`bidNtceNo`) and its ordinal (`bidNtceOrd`). */
  datatype Identifier = Identifier(number: string, ordinal: string)

  const DefaultOrdinal: string := "00"

  /**
   * `"R25BK01234567-000"` becomes number `R25BK01234567` and ordinal `000`;
   * without a `-` the ordinal is `"00"`. Only the first two `-`-separated
   * parts are read; both are stripped.
   */
  function ParseIdentifier(s: string): (id: Identifier)
    ensures IsStripped(id.number) && IsStripped(id.ordinal)
    ensures '-' !in id.number && '-' !in id.ordinal
    ensures '-' !in s ==> id == Identifier(Strip(s), DefaultOrdinal)
    ensures '-' in s ==> id == Identifier(Strip(Split(s, '-')[0]), Strip(Split(s, '-')[1]))
  {
    if '-' in s then
      var parts := Split(s, '-');
      StripKeepsAbsent(parts[0], '-');
      StripKeepsAbsent(parts[1], '-');
      Identifier(Strip(parts[0]), Strip(parts[1]))
    else
      StripKeepsAbsent(s, '-');
      Identifier(Strip(s), DefaultOrdinal)
  }

  /** The written form `number-ordinal` of an identifier. */
  function FormatIdentifier(id: Identifier): string {
    id.number + "-" + id.ordinal
  }

  /** Writing an identifier and reading it back gives the identifier. */
  lemma ParseFormat(id: Identifier)
    requires IsStripped(id.number) && IsStripped(id.ordinal)
    requires '-' !in id.number && '-' !in id.ordinal
    ensures ParseIdentifier(FormatIdentifier(id)) == id
  {
    var s := FormatIdentifier(id);
    assert s == id.number + ['-'] + id.ordinal;
    assert s[|id.number|] == '-';
    SplitPrefix(id.number, id.ordinal, '-');
    SplitNoSep(id.ordinal, '-');
    var parts := Split(s, '-');
    assert parts == [id.number, id.ordinal];
    StripOfStripped(id.number);
    StripOfStripped(id.ordinal);
  }

  /** Without a separator the whole (stripped) text is the number and the ordinal is `"00"`. */
  lemma ParsePlainNumber(s: string)
    requires '-' !in s
    ensures ParseIdentifier(s).ordinal == DefaultOrdinal
    ensures ParseIdentifier(s).number == Strip(s)
  {
  }

  /** The stripped, non-blank parts of `parts`, in order. */
  function NonBlankStripped(parts: seq<string>): (r: seq<string>)
    ensures |r| <= |parts|
    ensures forall i :: 0 <= i < |r| ==> r[i] != [] && IsStripped(r[i])
  {
    if parts == [] then []
    else
      var x := Strip(parts[0]);
      (if x != [] then [x] else []) + NonBlankStripped(parts[1..])
  }

  /**
   * The identifier list of a free-text input: commas count as line breaks,
   * every line is stripped and blank lines are dropped.
   */
  function Entries(input: string): (r: seq<string>)
    ensures forall i :: 0 <= i < |r| ==> r[i] != [] && IsStripped(r[i])
    ensures forall i :: 0 <= i < |r| ==> ',' !in r[i] && '\n' !in r[i]
  {
    var lines := Split(ReplaceChar(input, ',', '\n'), '\n');
    NoCommaInLines(input);
    NonBlankStrippedKeeps(lines);
    NonBlankStripped(lines)
  }

  lemma NoCommaInLines(input: string)
    ensures forall i :: 0 <= i < |Split(ReplaceChar(input, ',', '\n'), '\n')| ==>
      ',' !in Split(ReplaceChar(input, ',', '\n'), '\n')[i]
  {
    var t := ReplaceChar(input, ',', '\n');
    assert ',' !in t;
    SplitKeepsAbsent(t, '\n', ',');
  }

  lemma {:induction false} SplitKeepsAbsent(s: string, sep: char, c: char)
    requires c !in s
    ensures forall i :: 0 <= i < |Split(s, sep)| ==> c !in Split(s, sep)[i]
    decreases |s|
  {
    if s != [] {
      SplitKeepsAbsent(s[1..], sep, c);
    }
  }

  lemma {:induction false} NonBlankStrippedKeeps(parts: seq<string>)
    requires forall i :: 0 <= i < |parts| ==> ',' !in parts[i] && '\n' !in parts[i]
    ensures forall i :: 0 <= i < |NonBlankStripped(parts)| ==>
      ',' !in NonBlankStripped(parts)[i] && '\n' !in NonBlankStripped(parts)[i]
  {
    if parts != [] {
      NonBlankStrippedKeeps(parts[1..]);
      StripKeepsAbsent(parts[0], ',');
      StripKeepsAbsent(parts[0], '\n');
    }
  }

  /** Stripping and dropping blanks works part by part. */
  lemma {:induction false} NonBlankStrippedAppend(a: seq<string>, b: seq<string>)
    ensures NonBlankStripped(a + b) == NonBlankStripped(a) + NonBlankStripped(b)
    decreases |a|
  {
    if a == [] {
      assert a + b == b;
    } else {
      assert (a + b)[0] == a[0] && (a + b)[1..] == a[1..] + b;
      NonBlankStrippedAppend(a[1..], b);
    }
  }

  /** Text without a comma or a line break is one entry, stripped, or none when it is blank. */
  lemma EntriesOfPlain(x: string)
    requires ',' !in x && '\n' !in x
    ensures Entries(x) == if Strip(x) != [] then [Strip(x)] else []
  {
    assert ReplaceChar(x, ',', '\n') == x;
    SplitNoSep(x, '\n');
    assert [x][1..] == [];
  }

  /** A comma or a line break separates the entries: those before it, then those after it. */
  lemma EntriesAround(a: string, c: char, b: string)
    requires c == ',' || c == '\n'
    ensures Entries(a + [c] + b) == Entries(a) + Entries(b)
  {
    var ra, rb := ReplaceChar(a, ',', '\n'), ReplaceChar(b, ',', '\n');
    assert ReplaceChar(a + [c] + b, ',', '\n') == ra + ['\n'] + rb;
    SplitAround(ra, rb, '\n');
    NonBlankStrippedAppend(Split(ra, '\n'), Split(rb, '\n'));
  }

  /** Padding and blank lines are dropped: `" a ,\n\n b "` reads as `a`, then `b`. */
  lemma EntriesOfPaddedList(a: char, b: char)
    requires !IsSpace(a) && a != ',' && a != '\n'
    requires !IsSpace(b) && b != ',' && b != '\n'
    ensures Entries([' ', a, ' ', ',', '\n', '\n', ' ', b, ' ']) == [[a], [b]]
  {
    var pa, pb: string := [' ', a, ' '], [' ', b, ' '];
    var tail := [] + ['\n'] + pb;
    assert [' ', a, ' ', ',', '\n', '\n', ' ', b, ' '] == pa + [','] + ([] + ['\n'] + tail);
    EntriesAround(pa, ',', [] + ['\n'] + tail);
    EntriesAround([], '\n', tail);
    EntriesAround([], '\n', pb);
    assert Entries(pa) == [[a]] by {
      EntriesOfPlain(pa);
      StripPadded(a);
    }
    assert Entries(pb) == [[b]] by {
      EntriesOfPlain(pb);
      StripPadded(b);
    }
    assert Entries([]) == [] by {
      EntriesOfPlain([]);
    }
  }

  lemma StripPadded(x: char)
    requires !IsSpace(x)
    ensures Strip([' ', x, ' ']) == [x]
  {
    assert [' ', x, ' '][1..] == [x, ' '];
    assert TrimStart([' ', x, ' ']) == [x, ' '];
    assert [x, ' '][..1] == [x];
    assert TrimEnd([x, ' ']) == [x];
  }

  /** Identifiers written one per line are read back as they were, in order. */
  lemma EntriesOfLines(ids: seq<string>)
    requires ids != []
    requires forall i :: 0 <= i < |ids| ==> ids[i] != [] && IsStripped(ids[i])
    requires forall i :: 0 <= i < |ids| ==> ',' !in ids[i] && '\n' !in ids[i]
    ensures Entries(Join(ids, '\n')) == ids
  {
    var text := Join(ids, '\n');
    JoinHasNo(ids, '\n', ',');
    assert ReplaceChar(text, ',', '\n') == text;
    SplitJoin(ids, '\n');
    NonBlankStrippedOfClean(ids);
  }

  /** Identifiers separated by commas are read back as they were, in order. */
  lemma EntriesOfCommaList(ids: seq<string>)
    requires ids != []
    requires forall i :: 0 <= i < |ids| ==> ids[i] != [] && IsStripped(ids[i])
    requires forall i :: 0 <= i < |ids| ==> ',' !in ids[i] && '\n' !in ids[i]
    ensures Entries(Join(ids, ',')) == ids
  {
    JoinReplace(ids, ',', '\n');
    EntriesOfLines(ids);
    var lines := Join(ids, '\n');
    JoinHasNo(ids, '\n', ',');
    assert ReplaceChar(lines, ',', '\n') == lines;
    assert ReplaceChar(Join(ids, ','), ',', '\n') == lines;
  }

  lemma {:induction false} JoinHasNo(parts: seq<string>, sep: char, c: char)
    requires c != sep
    requires forall i :: 0 <= i < |parts| ==> c !in parts[i]
    ensures c !in Join(parts, sep)
    decreases |parts|
  {
    if |parts| > 1 {
      JoinHasNo(parts[1..], sep, c);
    }
  }

  lemma {:induction false} JoinReplace(parts: seq<string>, a: char, b: char)
    requires forall i :: 0 <= i < |parts| ==> a !in parts[i]
    ensures ReplaceChar(Join(parts, a), a, b) == Join(parts, b)
    decreases |parts|
  {
    if |parts| > 1 {
      JoinReplace(parts[1..], a, b);
      var p := parts[0];
      var rest := Join(parts[1..], a);
      assert ReplaceChar(p + [a] + rest, a, b) == ReplaceChar(p, a, b) + [b] + ReplaceChar(rest, a, b);
      assert ReplaceChar(p, a, b) == p;
    } else if |parts| == 1 {
      assert ReplaceChar(parts[0], a, b) == parts[0];
    }
  }

  lemma {:induction false} NonBlankStrippedOfClean(parts: seq<string>)
    requires forall i :: 0 <= i < |parts| ==> parts[i] != [] && IsStripped(parts[i])
    ensures NonBlankStripped(parts) == parts
  {
    if parts != [] {
      var tail := parts[1..];
      assert forall i :: 0 <= i < |tail| ==> tail[i] == parts[i + 1];
      NonBlankStrippedOfClean(tail);
      StripOfStripped(parts[0]);
      var x := Strip(parts[0]);
      assert x == parts[0] && x != [];
      calc {
        NonBlankStripped(parts);
        [x] + NonBlankStripped(tail);
        [parts[0]] + tail;
        parts;
      }
    }
  }
}

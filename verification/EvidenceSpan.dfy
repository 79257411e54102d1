/**
 Locating a quote in the text it was taken from (pipeline/evidence_span.py:27-305).

 Lower-casing a character is a library call: it is the field of a `Reading`.  A coverage is a
 real number.
 */
module EvidenceSpan {
  import opened Common
  import opened MarkdownLinks

  /** `lower` may make several characters of one. */
  datatype Reading = Reading(lower: char -> string)

  ghost predicate Proper(r: Reading) {
    forall c :: r.lower(c) != ""
  }

  // ----- Characters

  /** The one-for-one substitutions of what PDF extraction introduces. */
  function CharMap(c: char): Option<char> {
    if c == '\U{2019}' || c == '\U{2018}' then Some('\'')
    else if c == '\U{201c}' || c == '\U{201d}' then Some('"')
    else if c == '\U{2013}' || c == '\U{2014}' || c == '\U{2212}' then Some('-')
    else if c == '\U{a0}' || c == '\U{2009}' || c == '\U{202f}' || c == '\U{200b}' || c == '\U{2007}' then Some(' ')
    else None
  }

  function Ligature(c: char): string {
    if c == '\U{fb00}' then "ff"
    else if c == '\U{fb01}' then "fi"
    else if c == '\U{fb02}' then "fl"
    else if c == '\U{fb03}' then "ffi"
    else if c == '\U{fb04}' then "ffl"
    else ""
  }

  predicate IsBlank(c: char) {
    IsSpace(c) || CharMap(c) == Some(' ')
  }

  // ----- Normalisation

  /** A normalised text: `at[i]` is the offset in the original of `chars[i]`. */
  datatype Norm = Norm(chars: string, at: seq<nat>)

  function Repeat(n: nat, i: nat): (s: seq<nat>)
    ensures |s| == n && forall k | 0 <= k < n :: s[k] == i
  {
    if n == 0 then [] else [i] + Repeat(n - 1, i)
  }

  function Emitted(c: char, lower: char -> string): string {
    if Ligature(c) != "" then Ligature(c)
    else if IsBlank(c) then " "
    else if CharMap(c).Some? then [CharMap(c).value]
    else lower(c)
  }

  /** Where a run of blanks that starts before `i` ends: what is blank is `IsBlank` to a text. */
  function BlankEnd(text: string, blank: char -> bool, skip: map<nat, nat>, i: nat): (j: nat)
    requires i <= |text|
    ensures i <= j <= |text|
    decreases |text| - i
  {
    if i < |text| && blank(text[i]) && i !in skip then BlankEnd(text, blank, skip, i + 1) else i
  }

  predicate Skips(text: string, skip: map<nat, nat>) {
    forall i | i in skip :: i < skip[i] <= |text|
  }

  /** Where the reading of the character at `i` goes on. */
  function Onward(text: string, blank: char -> bool, skip: map<nat, nat>, i: nat): (j: nat)
    requires i < |text| && Skips(text, skip)
    ensures i < j <= |text|
  {
    if i in skip then skip[i]
    else if blank(text[i]) then BlankEnd(text, blank, skip, i + 1)
    else i + 1
  }

  /** The offsets the reading stops at, from `i` on. */
  function Stops(text: string, blank: char -> bool, skip: map<nat, nat>, i: nat): (s: seq<nat>)
    requires i <= |text| && Skips(text, skip)
    ensures forall k | 0 <= k < |s| :: i <= s[k] < |text| && s[k] !in skip
    ensures forall j, k | 0 <= j < k < |s| :: s[j] < s[k]
    decreases |text| - i
  {
    if i == |text| then []
    else (if i in skip then [] else [i]) + Stops(text, blank, skip, Onward(text, blank, skip, i))
  }

  /** What each character of a text is read as. */
  function Emitter(r: Reading): char -> string {
    c => Emitted(c, r.lower)
  }

  function Emits(e: string, x: nat): Norm {
    Norm(e, Repeat(|e|, x))
  }

  function Then(n: Norm, m: Norm): Norm {
    Norm(n.chars + m.chars, n.at + m.at)
  }

  /** The characters emitted at the first `n` of those offsets, each with its offset. */
  function ReadAt(text: string, emit: char -> string, stops: seq<nat>, n: nat): (r: Norm)
    requires n <= |stops| && forall k | 0 <= k < |stops| :: stops[k] < |text|
    ensures |r.chars| == |r.at|
  {
    if n == 0 then Norm("", [])
    else
      Then(ReadAt(text, emit, stops, n - 1), Emits(emit(text[stops[n - 1]]), stops[n - 1]))
  }

  /** The offsets a text is read at: the link syntax is left out. */
  function StopsOf(text: string): (s: seq<nat>)
    ensures forall k | 0 <= k < |s| :: s[k] < |text|
  {
    LinksFollow(text, 0);
    PiecesLie(Links(text), |text|);
    Stops(text, IsBlank, Skip(Links(text)), 0)
  }

  function NormalForm(text: string, r: Reading): (n: Norm)
    ensures |n.chars| == |n.at|
  {
    ReadAt(text, Emitter(r), StopsOf(text), |StopsOf(text)|)
  }

  /** The reading has reached `i` after `done` of the stops; it has emitted `n`. */
  ghost predicate Reached(text: string, blank: char -> bool, skip: map<nat, nat>, emit: char -> string, stops: seq<nat>,
                          i: nat, done: nat, n: Norm)
  {
    && i <= |text| && Skips(text, skip) && (forall k | 0 <= k < |stops| :: stops[k] < |text|)
    && done <= |stops| && stops[done..] == Stops(text, blank, skip, i) && n == ReadAt(text, emit, stops, done)
  }

  lemma StopsOn(text: string, blank: char -> bool, skip: map<nat, nat>, i: nat)
    requires i < |text| && Skips(text, skip)
    ensures Stops(text, blank, skip, i)
            == (if i in skip then [] else [i]) + Stops(text, blank, skip, Onward(text, blank, skip, i))
  {
  }

  lemma DropOne(s: seq<nat>, k: nat, i: nat, rest: seq<nat>)
    requires k <= |s| && s[k..] == [i] + rest
    ensures k < |s| && s[k] == i && s[k + 1..] == rest
  {
    assert s[k] == s[k..][0];
    assert s[k + 1..] == s[k..][1..];
  }

  lemma ReachedOn(text: string, blank: char -> bool, skip: map<nat, nat>, emit: char -> string, stops: seq<nat>,
                  i: nat, done: nat, n: Norm)
    requires Reached(text, blank, skip, emit, stops, i, done, n) && i < |text|
    ensures i in skip ==> Reached(text, blank, skip, emit, stops, skip[i], done, n)
    ensures i !in skip ==>
              var j := Onward(text, blank, skip, i);
              Reached(text, blank, skip, emit, stops, j, done + 1, Then(n, Emits(emit(text[i]), i)))
  {
    StopsOn(text, blank, skip, i);
    if i !in skip {
      DropOne(stops, done, i, Stops(text, blank, skip, Onward(text, blank, skip, i)));
    }
  }

  lemma ReachedAll(text: string, blank: char -> bool, skip: map<nat, nat>, emit: char -> string, stops: seq<nat>,
                   done: nat, n: Norm)
    requires Reached(text, blank, skip, emit, stops, |text|, done, n)
    ensures n == ReadAt(text, emit, stops, |stops|)
  {
    assert stops[done..] == [];
  }

  /** The end of a run of blanks. */
  method SkipBlanks(text: string, blank: char -> bool, skip: map<nat, nat>, i: nat) returns (j: nat)
    requires i <= |text|
    ensures j == BlankEnd(text, blank, skip, i)
  {
    j := i;
    while j < |text| && blank(text[j]) && j !in skip
      invariant i <= j <= |text| && BlankEnd(text, blank, skip, i) == BlankEnd(text, blank, skip, j)
    {
      j := j + 1;
    }
  }

  lemma BlanksAreNoLigatures()
    ensures forall c | IsBlank(c) :: Ligature(c) == ""
  {
  }

  /** Where the reading goes on after a character. */
  method Advance(text: string, blank: char -> bool, skip: map<nat, nat>, i: nat) returns (j: nat)
    requires i < |text| && i !in skip && Skips(text, skip) && forall c | blank(c) :: Ligature(c) == ""
    ensures j == Onward(text, blank, skip, i)
  {
    if Ligature(text[i]) == "" && blank(text[i]) {
      j := SkipBlanks(text, blank, skip, i + 1);
    } else {
      j := i + 1;
    }
  }

  method Normalise(text: string, r: Reading) returns (chars: string, at: seq<nat>)
    ensures Norm(chars, at) == NormalForm(text, r)
  {
    var skip := FindSkips(text);
    LinksFollow(text, 0);
    PiecesLie(Links(text), |text|);
    BlanksAreNoLigatures();
    chars, at := Read(text, IsBlank, skip, Emitter(r));
  }

  method Read(text: string, blank: char -> bool, skip: map<nat, nat>, emit: char -> string)
    returns (chars: string, at: seq<nat>)
    requires Skips(text, skip) && forall c | blank(c) :: Ligature(c) == ""
    ensures var stops := Stops(text, blank, skip, 0); Norm(chars, at) == ReadAt(text, emit, stops, |stops|)
  {
    chars, at := "", [];
    var i := 0;
    ghost var stops, done := Stops(text, blank, skip, 0), 0;
    while i < |text|
      invariant Reached(text, blank, skip, emit, stops, i, done, Norm(chars, at))
      decreases |text| - i
    {
      ReachedOn(text, blank, skip, emit, stops, i, done, Norm(chars, at));
      if i in skip {
        i := skip[i];
        continue;
      }
      var e := emit(text[i]);
      chars, at, done := chars + e, at + Repeat(|e|, i), done + 1;
      i := Advance(text, blank, skip, i);
    }
    ReachedAll(text, blank, skip, emit, stops, done, Norm(chars, at));
  }

  ghost predicate Rising(at: seq<nat>) {
    forall i, j | 0 <= i <= j < |at| :: at[i] <= at[j]
  }

  lemma RisesOn(at: seq<nat>, n: nat, i: nat)
    requires Rising(at) && forall x | x in at :: x <= i
    ensures Rising(at + Repeat(n, i)) && forall x | x in at + Repeat(n, i) :: x in at || (x == i && n > 0)
    ensures n > 0 ==> i in at + Repeat(n, i)
    ensures forall x | x in at :: x in at + Repeat(n, i)
  {
    assert forall k | 0 <= k < |at| :: at[k] in at;
    if n > 0 {
      assert (at + Repeat(n, i))[|at|] == i;
    }
  }

  /** Of increasing stops, the characters of the first `n` come in order, and one at least comes
      of each that emits any. */
  lemma {:induction false} ReadRises(text: string, emit: char -> string, stops: seq<nat>, n: nat)
    requires n <= |stops| && forall k | 0 <= k < |stops| :: stops[k] < |text|
    requires forall j, k | 0 <= j < k < |stops| :: stops[j] < stops[k]
    ensures Rising(ReadAt(text, emit, stops, n).at)
    ensures forall x | x in ReadAt(text, emit, stops, n).at :: exists k | 0 <= k < n :: stops[k] == x
    ensures forall k | 0 <= k < n && emit(text[stops[k]]) != "" :: stops[k] in ReadAt(text, emit, stops, n).at
  {
    if n > 0 {
      ReadRises(text, emit, stops, n - 1);
      RisesOn(ReadAt(text, emit, stops, n - 1).at, |emit(text[stops[n - 1]])|, stops[n - 1]);
    }
  }

  /** No piece of link syntax holds `x` but one that starts there. */
  ghost predicate Outside(skip: map<nat, nat>, x: nat) {
    forall i | i in skip :: !(i < x < skip[i])
  }

  ghost predicate Apart(skip: map<nat, nat>) {
    forall i, j | i in skip && j in skip :: !(i < j < skip[i])
  }

  lemma PiecesAreApart(text: string)
    ensures Skips(text, Skip(Links(text))) && Apart(Skip(Links(text)))
  {
    var ls := Links(text);
    LinksFollow(text, 0);
    PiecesLie(ls, |text|);
    forall i, j | i in Skip(ls) && j in Skip(ls)
      ensures !(i < j < Skip(ls)[i])
    {
      PiecesApart(ls, |text|, i, Skip(ls)[i], j, Skip(ls)[j]);
    }
  }

  lemma {:induction false} BlanksOutside(text: string, blank: char -> bool, skip: map<nat, nat>, i: nat)
    requires i <= |text| && Skips(text, skip) && Apart(skip) && Outside(skip, i)
    ensures Outside(skip, BlankEnd(text, blank, skip, i))
    decreases |text| - i
  {
    if i < |text| && blank(text[i]) && i !in skip {
      BlanksOutside(text, blank, skip, i + 1);
    }
  }

  lemma OnwardOutside(text: string, blank: char -> bool, skip: map<nat, nat>, i: nat)
    requires i < |text| && Skips(text, skip) && Apart(skip) && Outside(skip, i)
    ensures Outside(skip, Onward(text, blank, skip, i))
  {
    if i !in skip && Onward(text, blank, skip, i) != i + 1 {
      BlanksOutside(text, blank, skip, i + 1);
    }
  }

  /** The reading stops at no character of link syntax. */
  lemma {:induction false} StopsOutside(text: string, blank: char -> bool, skip: map<nat, nat>, i: nat)
    requires i <= |text| && Skips(text, skip) && Apart(skip) && Outside(skip, i)
    ensures forall x | x in Stops(text, blank, skip, i) :: x !in skip && Outside(skip, x)
    decreases |text| - i
  {
    if i < |text| {
      OnwardOutside(text, blank, skip, i);
      StopsOutside(text, blank, skip, Onward(text, blank, skip, i));
    }
  }

  /** It stops at every other one that is no blank. */
  lemma {:induction false} Stopped(text: string, blank: char -> bool, skip: map<nat, nat>, i: nat, x: nat)
    requires i <= x < |text| && Skips(text, skip) && !blank(text[x])
    requires x !in skip && Outside(skip, x)
    ensures x in Stops(text, blank, skip, i)
    decreases |text| - i
  {
    if i < x {
      var j := Onward(text, blank, skip, i);
      if i !in skip && j != i + 1 {
        BlanksOnly(text, blank, skip, i + 1, x);
      }
      Stopped(text, blank, skip, j, x);
    }
  }

  lemma {:induction false} BlanksOnly(text: string, blank: char -> bool, skip: map<nat, nat>, i: nat, x: nat)
    requires i <= x < |text| && !blank(text[x])
    ensures BlankEnd(text, blank, skip, i) <= x
    decreases x - i
  {
    if i < x && blank(text[i]) && i !in skip {
      BlanksOnly(text, blank, skip, i + 1, x);
    }
  }

  lemma InPieceIff(text: string, x: nat)
    ensures InPiece(Links(text), x) <==> x in Skip(Links(text)) || !Outside(Skip(Links(text)), x)
  {
    LinksFollow(text, 0);
    PieceHolds(Links(text), |text|, x);
  }

  lemma PieceHolds(ls: seq<Link>, n: nat, x: nat)
    requires InOrder(ls, n)
    ensures InPiece(ls, x) <==> x in Skip(ls) || !Outside(Skip(ls), x)
  {
    if InPiece(ls, x) {
      var i: nat, e: nat :| i <= x < e && Piece(ls, i, e);
      SkipsPieces(ls, n, i, e);
    }
    if x in Skip(ls) {
      PieceLies(ls, n, x);
    } else if !Outside(Skip(ls), x) {
      var i :| i in Skip(ls) && i < x < Skip(ls)[i];
      PieceLies(ls, n, i);
    }
  }

  /** The index map is as long as the normalised text, in range and nondecreasing, whatever
      ligatures and case folding do; and a character that is no blank is read exactly when it
      is not part of a link's syntax. */
  lemma NormalFormMaps(text: string, r: Reading)
    requires Proper(r)
    ensures var n := NormalForm(text, r);
            |n.at| == |n.chars| && Rising(n.at) && forall i | 0 <= i < |n.at| :: n.at[i] < |text|
    ensures forall x | x in NormalForm(text, r).at :: !InPiece(Links(text), x)
    ensures forall x | 0 <= x < |text| && !IsBlank(text[x]) && !InPiece(Links(text), x) :: x in NormalForm(text, r).at
  {
    var skip := Skip(Links(text));
    PiecesAreApart(text);
    ReadRises(text, Emitter(r), StopsOf(text), |StopsOf(text)|);
    StopsOutside(text, IsBlank, skip, 0);
    var n := NormalForm(text, r);
    forall i | 0 <= i < |n.at|
      ensures n.at[i] < |text|
    {
      assert n.at[i] in n.at;
    }
    forall x | x in n.at
      ensures !InPiece(Links(text), x)
    {
      InPieceIff(text, x);
    }
    forall x | 0 <= x < |text| && !IsBlank(text[x]) && !InPiece(Links(text), x)
      ensures x in n.at
    {
      InPieceIff(text, x);
      Stopped(text, IsBlank, skip, 0, x);
      assert Emitter(r)(text[x]) != "";
    }
  }

  // ----- Words

  function WordEnd(s: string, i: nat): (j: nat)
    requires i <= |s|
    ensures i <= j <= |s| && (j < |s| ==> s[j] == ' ') && forall k | i <= k < j :: s[k] != ' '
    decreases |s| - i
  {
    if i < |s| && s[i] != ' ' then WordEnd(s, i + 1) else i
  }

  /** The words of `s`, from `i` on: its maximal runs of characters that are no space. */
  function Words(s: string, i: nat): (ws: seq<(nat, nat)>)
    requires i <= |s|
    ensures forall k | 0 <= k < |ws| :: i <= ws[k].0 < ws[k].1 <= |s| && ' ' !in s[ws[k].0..ws[k].1]
    ensures forall j, k | 0 <= j < k < |ws| :: ws[j].1 < ws[k].0
    decreases |s| - i
  {
    if i == |s| then []
    else if s[i] == ' ' then Words(s, i + 1)
    else
      var end := WordEnd(s, i);
      assert ' ' !in s[i..end];
      if end == |s| then [(i, end)] else [(i, end)] + Words(s, end + 1)
  }

  /** From the start of a word on: that word, then the words after its end. */
  lemma WordsStep(s: string, i: nat)
    requires i < |s| && s[i] != ' '
    ensures Words(s, i) == [(i, WordEnd(s, i))] + Words(s, WordEnd(s, i))
  {
  }

  lemma Regroup(front: seq<(nat, nat)>, w: (nat, nat), rest: seq<(nat, nat)>)
    ensures front + ([w] + rest) == front + [w] + rest
  {
  }

  /** A run of characters that are no space, with none of them before or after it. */
  ghost predicate WholeRun(s: string, w: (nat, nat)) {
    && w.0 < w.1 <= |s| && (forall k | w.0 <= k < w.1 :: s[k] != ' ')
    && (w.0 > 0 ==> s[w.0 - 1] == ' ') && (w.1 < |s| ==> s[w.1] == ' ')
  }

  ghost predicate InSome(ws: seq<(nat, nat)>, q: nat) {
    exists k | 0 <= k < |ws| :: ws[k].0 <= q < ws[k].1
  }

  /** These are the whole runs from `i` on, and hold every character that is no space. */
  ghost predicate WholeRuns(s: string, ws: seq<(nat, nat)>, i: nat) {
    && (forall k | 0 <= k < |ws| :: WholeRun(s, ws[k]))
    && forall q: nat | i <= q < |s| && s[q] != ' ' :: InSome(ws, q)
  }

  lemma RunThenRuns(s: string, w: (nat, nat), rest: seq<(nat, nat)>)
    requires WholeRun(s, w) && WholeRuns(s, rest, w.1)
    ensures WholeRuns(s, [w] + rest, w.0)
  {
    var all := [w] + rest;
    forall q: nat | w.0 <= q < |s| && s[q] != ' '
      ensures InSome(all, q)
    {
      if q < w.1 {
        assert all[0] == w;
      } else {
        var k :| 0 <= k < |rest| && rest[k].0 <= q < rest[k].1;
        assert all[k + 1] == rest[k];
      }
    }
  }

  lemma {:induction false} WordsAreRuns(s: string, i: nat)
    requires i <= |s| && (i > 0 && i < |s| && s[i] != ' ' ==> s[i - 1] == ' ')
    ensures WholeRuns(s, Words(s, i), i)
    decreases |s| - i
  {
    if i < |s| {
      if s[i] == ' ' {
        WordsAreRuns(s, i + 1);
      } else {
        var end := WordEnd(s, i);
        WordsAreRuns(s, end);
        WordsStep(s, i);
        RunThenRuns(s, (i, end), Words(s, end));
      }
    }
  }

  method WordSpans(s: string) returns (spans: seq<(nat, nat)>)
    ensures spans == Words(s, 0)
    ensures forall k | 0 <= k < |spans| :: WholeRun(s, spans[k])
    ensures forall j, k | 0 <= j < k < |spans| :: spans[j].1 < spans[k].0
    ensures forall q | 0 <= q < |s| && s[q] != ' ' :: InSome(spans, q)
  {
    spans := ScanWords(s);
    WordsAreRuns(s, 0);
  }

  method ScanWords(s: string) returns (spans: seq<(nat, nat)>)
    ensures spans == Words(s, 0)
  {
    spans := [];
    var start := 0;
    while start < |s|
      invariant 0 <= start <= |s| && spans + Words(s, start) == Words(s, 0)
    {
      ghost var from := start;
      while start < |s| && s[start] == ' '
        invariant from <= start <= |s| && Words(s, start) == Words(s, from)
      {
        start := start + 1;
      }
      if start >= |s| {
        break;
      }
      var end := start;
      while end < |s| && s[end] != ' '
        invariant start <= end <= |s| && WordEnd(s, start) == WordEnd(s, end)
      {
        end := end + 1;
      }
      WordsStep(s, start);
      Regroup(spans, (start, end), Words(s, end));
      spans := spans + [(start, end)];
      start := end;
    }
    assert spans + [] == spans;
  }

  function TextOf(s: string, ws: seq<(nat, nat)>): seq<string>
    requires forall k | 0 <= k < |ws| :: ws[k].0 <= ws[k].1 <= |s|
  {
    if ws == [] then [] else [s[ws[0].0..ws[0].1]] + TextOf(s, ws[1..])
  }

  function Joined(words: seq<string>): string {
    if words == [] then ""
    else if |words| == 1 then words[0]
    else words[0] + " " + Joined(words[1..])
  }

  // ----- Finding a string

  predicate OccursAt(text: string, s: string, p: nat) {
    p + |s| <= |text| && text[p..p + |s|] == s
  }

  predicate Occurs(text: string, s: string) {
    exists p | 0 <= p <= |text| :: OccursAt(text, s, p)
  }

  /** `str.find`, from `p` on: the first occurrence. */
  function Find(text: string, s: string, p: nat): (found: Option<nat>)
    requires p <= |text|
    ensures found.Some? ==> p <= found.value && OccursAt(text, s, found.value)
                            && forall q | p <= q < found.value :: !OccursAt(text, s, q)
    ensures found.None? ==> forall q | p <= q <= |text| :: !OccursAt(text, s, q)
    decreases |text| - p
  {
    if OccursAt(text, s, p) then Some(p)
    else if p == |text| then None
    else Find(text, s, p + 1)
  }

  lemma FindsIff(text: string, s: string)
    ensures Find(text, s, 0).Some? <==> Occurs(text, s)
  {
  }

  // ----- The longest part of a quote the text holds

  function Front(words: seq<string>, k: nat): string
    requires k <= |words|
  {
    Joined(words[..k])
  }

  function Back(words: seq<string>, k: nat): string
    requires k <= |words|
  {
    Joined(words[|words| - k..])
  }

  function Part(words: seq<string>, k: nat, front: bool): string
    requires k <= |words|
  {
    if front then Front(words, k) else Back(words, k)
  }

  lemma {:induction false} JoinedLonger(words: seq<string>, more: string)
    requires words != []
    ensures Joined(words + [more]) == Joined(words) + " " + more
  {
    if |words| == 1 {
      assert (words + [more])[1..] == [more];
    } else {
      assert (words + [more])[1..] == words[1..] + [more];
      JoinedLonger(words[1..], more);
      assert words[0] + " " + (Joined(words[1..]) + " " + more) == words[0] + " " + Joined(words[1..]) + " " + more;
    }
  }

  /** A part of k words holds the part of k - 1. */
  lemma PartOfPart(words: seq<string>, k: nat, front: bool)
    requires 1 < k <= |words|
    ensures Occurs(Part(words, k, front), Part(words, k - 1, front))
  {
    if front {
      assert words[..k] == words[..k - 1] + [words[k - 1]];
      JoinedLonger(words[..k - 1], words[k - 1]);
      assert OccursAt(Part(words, k, front), Part(words, k - 1, front), 0);
    } else {
      var tail := words[|words| - k..];
      assert tail[1..] == words[|words| - (k - 1)..];
      var head := tail[0] + " ";
      assert Joined(tail) == head + Joined(tail[1..]);
      assert OccursAt(Part(words, k, front), Part(words, k - 1, front), |head|);
    }
  }

  lemma OccursWithin(text: string, whole: string, piece: string)
    requires Occurs(text, whole) && Occurs(whole, piece)
    ensures Occurs(text, piece)
  {
    var q :| 0 <= q <= |text| && OccursAt(text, whole, q);
    var p :| 0 <= p <= |whole| && OccursAt(whole, piece, p);
    forall i | 0 <= i < |piece|
      ensures text[q + p + i] == piece[i]
    {
      assert text[q + p + i] == text[q..q + |whole|][p + i];
      assert whole[p + i] == whole[p..p + |piece|][i];
    }
    assert text[q + p..q + p + |piece|] == piece;
    assert OccursAt(text, piece, q + p);
  }

  predicate Found(text: string, words: seq<string>, k: nat, front: bool) {
    k <= |words| && Occurs(text, Part(words, k, front))
  }

  lemma OneFewer(text: string, words: seq<string>, k: nat, front: bool)
    requires 1 < k && Found(text, words, k, front)
    ensures Found(text, words, k - 1, front)
  {
    PartOfPart(words, k, front);
    OccursWithin(text, Part(words, k, front), Part(words, k - 1, front));
  }

  /** If k words are found, so are fewer. */
  lemma {:induction false} FoundIsMonotone(text: string, words: seq<string>, j: nat, k: nat, front: bool)
    requires 1 <= j <= k && Found(text, words, k, front)
    ensures Found(text, words, j, front)
    decreases k
  {
    if j < k {
      OneFewer(text, words, k, front);
      FoundIsMonotone(text, words, j, k - 1, front);
    }
  }

  /** What a linear search over every length finds: the longest part the text holds. */
  ghost predicate Longest(text: string, words: seq<string>, front: bool, best: nat) {
    && best <= |words|
    && (best > 0 ==> Found(text, words, best, front))
    && forall k | best < k <= |words| :: !Found(text, words, k, front)
  }

  /** The binary search finds it, and nothing else is it. */
  method BestPart(text: string, words: seq<string>, front: bool) returns (best: nat)
    ensures forall k: nat :: Longest(text, words, front, k) <==> k == best
  {
    var lo, hi := 1, |words|;
    best := 0;
    while lo <= hi
      invariant 1 <= lo && hi <= |words| && lo - 1 <= hi && best == lo - 1
      invariant best > 0 ==> Found(text, words, best, front)
      invariant forall k | hi < k <= |words| :: !Found(text, words, k, front)
      decreases hi - lo
    {
      var mid := (lo + hi) / 2;
      FindsIff(text, Part(words, mid, front));
      if Find(text, Part(words, mid, front), 0).Some? {
        best := mid;
        lo := mid + 1;
      } else {
        forall k | mid <= k <= |words|
          ensures !Found(text, words, k, front)
        {
          if Found(text, words, k, front) {
            FoundIsMonotone(text, words, mid, k, front);
          }
        }
        hi := mid - 1;
      }
    }
  }

  // ----- The span

  datatype Span = Span(start: nat, end: nat, coverage: real, exact: bool)

  /** The source text of `len` characters of the normalised text, from `p` on. */
  function SpanAt(text: string, n: Norm, p: nat, len: nat, coverage: real, exact: bool): Span
    requires |n.at| == |n.chars| && len > 0 && p + len <= |n.chars|
  {
    var end := n.at[p + len - 1] + 1;
    Span(n.at[p], if end < |text| then end else |text|, coverage, exact)
  }

  /** A span delimits source text, and the `len` characters from `p` on were read from it,
      the first from its start and the last from its end. */
  ghost predicate Delimits(text: string, n: Norm, s: Span, p: nat, len: nat) {
    && |n.at| == |n.chars| && len > 0 && p + len <= |n.chars|
    && s.start < s.end <= |text|
    && n.at[p] == s.start && n.at[p + len - 1] == s.end - 1
    && forall q | p <= q < p + len :: s.start <= n.at[q] < s.end
  }

  function Trimmed(s: string): string {
    if s != "" && s[0] == ' ' then Trimmed(s[1..])
    else if s != "" && Last(s) == ' ' then Trimmed(s[..|s| - 1])
    else s
  }

  const MIN_WORDS := 3

  /** The normalised quote, its edge spaces taken off. */
  function Quoted(quote: string, r: Reading): string
    requires Proper(r)
  {
    Trimmed(NormalForm(quote, r).chars)
  }

  function QuoteWords(quote: string, r: Reading): seq<string>
    requires Proper(r)
  {
    TextOf(Quoted(quote, r), Words(Quoted(quote, r), 0))
  }

  function Share(k: nat, total: nat): real
    requires total > 0
  {
    k as real / total as real
  }

  /** The span of the first place the text holds a part of the quote. */
  function PartSpan(text: string, n: Norm, words: seq<string>, k: nat, front: bool): Option<Span>
    requires |n.at| == |n.chars| && 0 < k <= |words|
  {
    var part := Part(words, k, front);
    var found := Find(n.chars, part, 0);
    if found.None? || part == "" then None
    else Some(SpanAt(text, n, found.value, |part|, Share(k, |words|), false))
  }

  /** The longest beginning if that covers enough, else the longest end if that does, else nothing. */
  ghost predicate LocatesPart(text: string, n: Norm, words: seq<string>, min: real, found: Option<Span>)
    requires |n.at| == |n.chars| && words != []
  {
    exists front: nat, back: nat ::
      && Longest(n.chars, words, true, front) && Longest(n.chars, words, false, back)
      && found == BetterPart(text, n, words, min, front, back)
  }

  function BetterPart(text: string, n: Norm, words: seq<string>, min: real, front: nat, back: nat): Option<Span>
    requires |n.at| == |n.chars| && words != [] && front <= |words| && back <= |words|
  {
    if front > 0 && Share(front, |words|) >= min then PartSpan(text, n, words, front, true)
    else if back > 0 && Share(back, |words|) >= min then PartSpan(text, n, words, back, false)
    else None
  }

  /** What `locate` answers: the first place of the whole quote, else of a part of it. */
  ghost predicate LocatesIn(text: string, n: Norm, nq: string, words: seq<string>, min: real, found: Option<Span>)
    requires |n.at| == |n.chars|
  {
    if |words| < MIN_WORDS then found == None
    else if Occurs(n.chars, nq) then
      nq != "" && exists p | 0 <= p <= |n.chars| ::
        FirstAt(n.chars, nq, p) && found == Some(SpanAt(text, n, p, |nq|, 1.0, true))
    else LocatesPart(text, n, words, min, found)
  }

  ghost predicate Locates(quote: string, text: string, r: Reading, min: real, found: Option<Span>)
    requires Proper(r)
  {
    if quote == "" || text == "" then found == None
    else LocatesIn(text, NormalForm(text, r), Quoted(quote, r), QuoteWords(quote, r), min, found)
  }

  predicate FirstAt(text: string, s: string, p: nat) {
    OccursAt(text, s, p) && forall q | 0 <= q < p :: !OccursAt(text, s, q)
  }

  lemma {:induction false} TextOfWords(s: string, ws: seq<(nat, nat)>)
    requires forall k | 0 <= k < |ws| :: ws[k].0 < ws[k].1 <= |s|
    ensures |TextOf(s, ws)| == |ws| && forall w | w in TextOf(s, ws) :: w != ""
  {
    if ws != [] {
      TextOfWords(s, ws[1..]);
    }
  }

  lemma PartNotEmpty(words: seq<string>, k: nat, front: bool)
    requires 0 < k <= |words| && forall w | w in words :: w != ""
    ensures Part(words, k, front) != ""
  {
    var some := if front then words[..k] else words[|words| - k..];
    assert some[0] in words;
  }

  /** Locate a quote that holds no joint. */
  method LocateOne(quote: string, text: string, r: Reading, min: real) returns (found: Option<Span>)
    requires Proper(r)
    ensures Locates(quote, text, r, min, found)
  {
    if quote == "" || text == "" {
      return None;
    }
    var chars, at := Normalise(quote, r);
    var nt, offsets := Normalise(text, r);
    found := LocateIn(text, Norm(nt, offsets), Trimmed(chars), min);
  }

  method LocateIn(text: string, n: Norm, nq: string, min: real) returns (found: Option<Span>)
    requires |n.at| == |n.chars|
    ensures LocatesIn(text, n, nq, TextOf(nq, Words(nq, 0)), min, found)
  {
    var spans := WordSpans(nq);
    var words := TextOf(nq, spans);
    TextOfWords(nq, spans);
    if |spans| < MIN_WORDS {
      return None;
    }
    assert nq != "";
    FindsIff(n.chars, nq);
    var whole := Find(n.chars, nq, 0);
    if whole.Some? {
      assert FirstAt(n.chars, nq, whole.value);
      return Some(SpanAt(text, n, whole.value, |nq|, 1.0, true));
    }
    found := LocatePart(text, n, words, min);
  }

  method LocatePart(text: string, n: Norm, words: seq<string>, min: real) returns (found: Option<Span>)
    requires |n.at| == |n.chars| && words != [] && forall w | w in words :: w != ""
    ensures LocatesPart(text, n, words, min, found)
  {
    var front := BestPart(n.chars, words, true);
    assert Longest(n.chars, words, true, front);
    if front > 0 {
      var span := FindPart(text, n, words, front, true);
      if span.coverage >= min {
        BackExists(n.chars, words);
        ghost var back: nat :| Longest(n.chars, words, false, back);
        assert Some(span) == BetterPart(text, n, words, min, front, back);
        return Some(span);
      }
    }
    var back := BestPart(n.chars, words, false);
    assert Longest(n.chars, words, false, back);
    if back > 0 {
      var span := FindPart(text, n, words, back, false);
      if span.coverage >= min {
        assert Some(span) == BetterPart(text, n, words, min, front, back);
        return Some(span);
      }
    }
    assert None == BetterPart(text, n, words, min, front, back);
    return None;
  }

  /** The span of a part of the quote that the text holds. */
  method FindPart(text: string, n: Norm, words: seq<string>, k: nat, front: bool) returns (span: Span)
    requires |n.at| == |n.chars|
    requires 0 < k <= |words| && (forall w | w in words :: w != "") && Occurs(n.chars, Part(words, k, front))
    ensures PartSpan(text, n, words, k, front) == Some(span) && span.coverage == Share(k, |words|)
  {
    PartNotEmpty(words, k, front);
    FindsIff(n.chars, Part(words, k, front));
    var found := Find(n.chars, Part(words, k, front), 0);
    span := SpanAt(text, n, found.value, |Part(words, k, front)|, Share(k, |words|), false);
  }

  /** A linear search always has an answer. */
  lemma BackExists(text: string, words: seq<string>)
    ensures exists best: nat :: Longest(text, words, false, best)
  {
    var best := LongestUpTo(text, words, |words|);
  }

  lemma {:induction false} LongestUpTo(text: string, words: seq<string>, k: nat) returns (best: nat)
    requires k <= |words| && forall j | k < j <= |words| :: !Found(text, words, j, false)
    ensures Longest(text, words, false, best)
  {
    if k == 0 || Found(text, words, k, false) {
      best := k;
    } else {
      best := LongestUpTo(text, words, k - 1);
    }
  }

  /** Every span located lies in the text, covers at least the wanted share of the quote and
      at most all of it, and delimits the source text that the whole quote, or the words matched,
      were read from. */
  lemma LocatedSpan(quote: string, text: string, r: Reading, min: real, s: Span)
    requires Proper(r) && Locates(quote, text, r, min, Some(s))
    ensures s.start < s.end <= |text| && 0.0 < s.coverage <= 1.0
    ensures s.exact ==> s.coverage == 1.0 && Reads(text, NormalForm(text, r), s, Quoted(quote, r))
    ensures !s.exact ==> s.coverage >= min && exists k: nat, front ::
              0 < k <= |QuoteWords(quote, r)| && s.coverage == Share(k, |QuoteWords(quote, r)|)
              && Reads(text, NormalForm(text, r), s, Part(QuoteWords(quote, r), k, front))
  {
    NormalFormMaps(text, r);
    LocatedIn(text, NormalForm(text, r), Quoted(quote, r), QuoteWords(quote, r), min, s);
  }

  /** The index map of a text. */
  ghost predicate MapsInto(n: Norm, text: string) {
    |n.at| == |n.chars| && Rising(n.at) && forall i | 0 <= i < |n.at| :: n.at[i] < |text|
  }

  lemma LocatedIn(text: string, n: Norm, nq: string, words: seq<string>, min: real, s: Span)
    requires MapsInto(n, text) && LocatesIn(text, n, nq, words, min, Some(s))
    ensures s.start < s.end <= |text| && 0.0 < s.coverage <= 1.0
    ensures s.exact ==> s.coverage == 1.0 && Reads(text, n, s, nq)
    ensures !s.exact ==> s.coverage >= min && exists k: nat, front ::
              0 < k <= |words| && s.coverage == Share(k, |words|) && Reads(text, n, s, Part(words, k, front))
  {
    if Occurs(n.chars, nq) {
      var p :| 0 <= p <= |n.chars| && FirstAt(n.chars, nq, p) && Some(s) == Some(SpanAt(text, n, p, |nq|, 1.0, true));
      assert OccursAt(n.chars, nq, p) && Delimits(text, n, s, p, |nq|);
    } else {
      var longest: nat, back: nat :|
        && Longest(n.chars, words, true, longest) && Longest(n.chars, words, false, back)
        && Some(s) == BetterPart(text, n, words, min, longest, back);
      var front := longest > 0 && Share(longest, |words|) >= min;
      var k := if front then longest else back;
      PartSpanReads(text, n, words, k, front, s);
      ShareBounds(k, |words|);
    }
  }

  lemma AtMostOne(a: real, b: real)
    requires 0.0 < a <= b
    ensures 0.0 < a / b <= 1.0
  {
  }

  lemma ShareBounds(k: nat, total: nat)
    requires 0 < k <= total
    ensures 0.0 < Share(k, total) <= 1.0
  {
    AtMostOne(k as real, total as real);
  }

  /** The span delimits source text from which the string was read. */
  ghost predicate Reads(text: string, n: Norm, s: Span, matched: string) {
    exists p: nat :: OccursAt(n.chars, matched, p) && Delimits(text, n, s, p, |matched|)
  }

  lemma PartSpanReads(text: string, n: Norm, words: seq<string>, k: nat, front: bool, s: Span)
    requires MapsInto(n, text) && 0 < k <= |words| && PartSpan(text, n, words, k, front) == Some(s)
    ensures Reads(text, n, s, Part(words, k, front)) && s.coverage == Share(k, |words|) && !s.exact
    ensures s.start < s.end <= |text|
  {
    var part := Part(words, k, front);
    var p := Find(n.chars, part, 0).value;
    assert OccursAt(n.chars, part, p) && Delimits(text, n, s, p, |part|);
  }
}

/** The multi-value picker: a form field holding several option values as one
    comma-delimited string (`"Misionero, Perrito"`). The component parses the
    string into a list, shows which options are selected, and toggles one value
    at a time, writing the list back joined with ", ". The position rows the
    recommendation engine reads are this same string split on ','. */
module MultiPicker {
  import opened Text

  /** An entry of the picker's option list; `caption` is the source's `label`. */
  datatype PickerOption = PickerOption(caption: string, value: string)

  /** A value the codec can carry: non-empty, comma-free and already trimmed. */
  predicate IsToken(t: string) {
    t != "" && ',' !in t && IsTrimmed(t)
  }

  predicate AllTokens(xs: seq<string>) {
    forall i :: 0 <= i < |xs| ==> IsToken(xs[i])
  }

  lemma TrimKeepsNoComma(p: string)
    requires ',' !in p
    ensures ',' !in Trim(p)
  {
  }

  /** Every piece trimmed. */
  function TrimAll(pieces: seq<string>): (ts: seq<string>)
    ensures |ts| == |pieces|
  {
    if |pieces| == 0 then [] else [Trim(pieces[0])] + TrimAll(pieces[1..])
  }

  /** The number of non-empty strings in a list. */
  function NonEmptyCount(xs: seq<string>): nat {
    if |xs| == 0 then 0 else (if xs[0] == "" then 0 else 1) + NonEmptyCount(xs[1..])
  }

  /** The trimmed, non-empty pieces, in order (`map(trim).filter(v => v)`). */
  function Tokens(pieces: seq<string>): (ts: seq<string>)
    requires forall i :: 0 <= i < |pieces| ==> ',' !in pieces[i]
    ensures |ts| <= |pieces|
    ensures AllTokens(ts)
  {
    if |pieces| == 0 then []
    else
      var t := Trim(pieces[0]);
      var rest := pieces[1..];
      assert forall i :: 0 <= i < |rest| ==> ',' !in rest[i] by {
        assert forall i :: 0 <= i < |rest| ==> rest[i] == pieces[i + 1];
      }
      var head := if t == "" then [] else [t];
      assert AllTokens(head) by {
        TrimKeepsNoComma(pieces[0]);
      }
      var tail := Tokens(rest);
      AllTokensAppend(head, tail);
      head + tail
  }

  /** The non-empty strings of a list, in order. */
  function NonEmptyOf(xs: seq<string>): seq<string> {
    if |xs| == 0 then [] else (if xs[0] == "" then [] else [xs[0]]) + NonEmptyOf(xs[1..])
  }

  /** The non-empty strings are a subsequence that keeps as many as there
      are non-empty strings, none of them empty. */
  lemma {:induction false} NonEmptyOfFacts(xs: seq<string>)
    ensures IsSubsequence(NonEmptyOf(xs), xs)
    ensures |NonEmptyOf(xs)| == NonEmptyCount(xs)
    ensures forall i :: 0 <= i < |NonEmptyOf(xs)| ==> NonEmptyOf(xs)[i] != ""
  {
    if |xs| > 0 {
      var tail := NonEmptyOf(xs[1..]);
      NonEmptyOfFacts(xs[1..]);
      if xs[0] == "" {
        assert NonEmptyOf(xs) == tail;
        if |tail| > 0 {
          assert tail[0] != xs[0];
        }
      } else {
        assert NonEmptyOf(xs) == [xs[0]] + tail;
        assert ([xs[0]] + tail)[1..] == tail;
      }
    }
  }

  lemma TrimAllCons(p: string, ps: seq<string>)
    ensures TrimAll([p] + ps) == [Trim(p)] + TrimAll(ps)
  {
    assert ([p] + ps)[1..] == ps;
  }

  lemma NonEmptyOfCons(t: string, xs: seq<string>)
    ensures NonEmptyOf([t] + xs) == (if t == "" then [] else [t]) + NonEmptyOf(xs)
  {
    assert ([t] + xs)[1..] == xs;
  }

  /** The tokens are the non-empty trimmed pieces. */
  lemma {:induction false} TokensAreNonEmptyTrimmed(pieces: seq<string>)
    requires forall i :: 0 <= i < |pieces| ==> ',' !in pieces[i]
    ensures Tokens(pieces) == NonEmptyOf(TrimAll(pieces))
  {
    if |pieces| > 0 {
      var rest := pieces[1..];
      assert forall i :: 0 <= i < |rest| ==> ',' !in rest[i] by {
        assert forall i :: 0 <= i < |rest| ==> rest[i] == pieces[i + 1];
      }
      TokensAreNonEmptyTrimmed(rest);
      assert pieces == [pieces[0]] + rest;
      TokensCons(pieces[0], rest);
      TrimAllCons(pieces[0], rest);
      NonEmptyOfCons(Trim(pieces[0]), TrimAll(rest));
    }
  }

  /** A string is a token exactly when it is a non-empty trimmed piece. */
  lemma {:induction false} TokensMembership(pieces: seq<string>, t: string)
    requires forall i :: 0 <= i < |pieces| ==> ',' !in pieces[i]
    ensures t in Tokens(pieces) <==> exists i :: 0 <= i < |pieces| && t == Trim(pieces[i]) && t != ""
  {
    if |pieces| > 0 {
      var rest := pieces[1..];
      assert forall i :: 0 <= i < |rest| ==> ',' !in rest[i] && rest[i] == pieces[i + 1];
      TokensMembership(rest, t);
      var head := if Trim(pieces[0]) == "" then [] else [Trim(pieces[0])];
      assert Tokens(pieces) == head + Tokens(rest);
      if exists i :: 0 <= i < |pieces| && t == Trim(pieces[i]) && t != "" {
        var i :| 0 <= i < |pieces| && t == Trim(pieces[i]) && t != "";
        if i > 0 {
          assert t == Trim(rest[i - 1]);
        }
      }
    }
  }

  lemma AllTokensAppend(xs: seq<string>, ys: seq<string>)
    requires AllTokens(xs) && AllTokens(ys)
    ensures AllTokens(xs + ys)
  {
    forall i | 0 <= i < |xs + ys| ensures IsToken((xs + ys)[i]) {
      if i >= |xs| {
        assert (xs + ys)[i] == ys[i - |xs|];
      }
    }
  }

  /** The `selectedValues` of the component: an empty value selects nothing,
      otherwise the comma-separated pieces, trimmed, with empty pieces dropped. */
  function ParseSelected(value: string): (xs: seq<string>)
    ensures value == "" ==> xs == []
    ensures AllTokens(xs)
    ensures |xs| <= Occurrences(value, ',') + 1
  {
    if value == "" then [] else Tokens(Split(value, ','))
  }

  /** What the field selects: the comma-separated pieces, trimmed, with the
      empty ones dropped and the others kept in order, and a string is
      selected exactly when it is one of those pieces. (The empty value has
      the single empty piece.) */
  lemma ParseIsTrimmedPieces(value: string, t: string)
    ensures var xs := ParseSelected(value);
      && IsSubsequence(xs, TrimAll(Split(value, ',')))
      && |xs| == NonEmptyCount(TrimAll(Split(value, ',')))
      && (t in xs <==> exists i :: 0 <= i < |Split(value, ',')| && t == Trim(Split(value, ',')[i]) && t != "")
  {
    var pieces := Split(value, ',');
    if value == "" {
      assert pieces == [""];
      assert TrimAll(pieces) == [""];
      assert NonEmptyCount([""]) == NonEmptyCount([""][1..]);
    } else {
      TokensAreNonEmptyTrimmed(pieces);
      NonEmptyOfFacts(TrimAll(pieces));
      TokensMembership(pieces, t);
    }
  }

  lemma SpaceHasNoComma(pre: string)
    requires AllSpace(pre)
    ensures ',' !in pre
  {
  }

  lemma TokensCons(p: string, ps: seq<string>)
    requires ',' !in p
    requires forall i :: 0 <= i < |ps| ==> ',' !in ps[i]
    ensures Tokens([p] + ps) == (if Trim(p) == "" then [] else [Trim(p)]) + Tokens(ps)
  {
    assert ([p] + ps)[1..] == ps;
  }

  lemma JoinTail(pre: string, xs: seq<string>)
    requires |xs| > 1
    ensures pre + Join(xs, ", ") == (pre + xs[0]) + [','] + (" " + Join(xs[1..], ", "))
  {
  }

  lemma TokensOfSingle(pre: string, x: string)
    requires AllSpace(pre) && IsToken(x)
    ensures Tokens(Split(pre + x, ',')) == [x]
  {
    SpaceHasNoComma(pre);
    TrimAfterSpace(pre, x);
    SplitWithoutDelimiter(pre + x, ',');
    TokensCons(pre + x, []);
  }

  lemma TokensOfPair(pre: string, x: string, tail: string)
    requires AllSpace(pre) && IsToken(x)
    ensures forall i :: 0 <= i < |Split(tail, ',')| ==> ',' !in Split(tail, ',')[i]
    ensures Tokens(Split(pre + x + [','] + tail, ',')) == [x] + Tokens(Split(tail, ','))
  {
    SpaceHasNoComma(pre);
    TrimAfterSpace(pre, x);
    SplitAtDelimiter(pre + x, tail, ',');
    TokensCons(pre + x, Split(tail, ','));
  }

  /** Parsing a join with ", " (after any white space) gives back the tokens. */
  lemma {:induction false} TokensOfJoin(pre: string, xs: seq<string>)
    requires AllSpace(pre)
    requires |xs| > 0 && AllTokens(xs)
    ensures Tokens(Split(pre + Join(xs, ", "), ',')) == xs
    decreases |xs|
  {
    if |xs| == 1 {
      TokensOfSingle(pre, xs[0]);
    } else {
      var tail := " " + Join(xs[1..], ", ");
      JoinTail(pre, xs);
      TokensOfPair(pre, xs[0], tail);
      assert AllSpace(" ");
      TokensOfJoin(" ", xs[1..]);
      assert xs == [xs[0]] + xs[1..];
    }
  }

  /** The codec round trip: a list of tokens joined with ", " parses back to
      itself (the empty list joins to the empty string, which parses to []). */
  lemma ParseJoin(xs: seq<string>)
    requires AllTokens(xs)
    ensures ParseSelected(Join(xs, ", ")) == xs
  {
    if |xs| > 0 {
      TokensOfJoin("", xs);
      assert "" + Join(xs, ", ") == Join(xs, ", ");
      assert Join(xs, ", ") != "" by {
        if |xs| > 1 {
          assert |Join(xs, ", ")| >= |xs[0]|;
        }
      }
    }
  }

  /** Two values joined by a bare comma, as a suggestion may arrive, are
      read as the two values. */
  lemma BareCommaPairIsRead(a: string, b: string)
    requires IsToken(a) && IsToken(b)
    ensures ParseSelected(a + [','] + b) == [a, b]
  {
    var pieces := [a, b];
    assert pieces[1..] == [b];
    assert Join(pieces, [',']) == a + [','] + b;
    SplitJoin(pieces, ',');
    TrimOfTrimmed(a);
    TrimOfTrimmed(b);
    TokensCons(b, []);
    assert [b] + [] == [b];
    TokensCons(a, [b]);
    assert [a] + [b] == pieces;
  }

  lemma TrimOfTrimmed(s: string)
    requires IsTrimmed(s)
    ensures Trim(s) == s
  {
    assert AllSpace("") && "" + s == s;
    TrimAfterSpace("", s);
  }

  /** Position of the first occurrence of `v` (`indexOf`). */
  function IndexOf(xs: seq<string>, v: string): (i: nat)
    requires v in xs
    ensures i < |xs| && xs[i] == v && v !in xs[..i]
  {
    if xs[0] == v then 0 else 1 + IndexOf(xs[1..], v)
  }

  /** `toggleOption` on the parsed list: a present value loses its first
      occurrence (`splice(index, 1)`), an absent one is appended (`push`). */
  function ToggleList(xs: seq<string>, v: string): (r: seq<string>)
    ensures v !in xs ==> r == xs + [v]
    ensures v in xs ==> exists i :: 0 <= i < |xs| && xs[i] == v && v !in xs[..i] && r == xs[..i] + xs[i + 1..]
    ensures v in xs ==> multiset(r) == multiset(xs) - multiset{v}
  {
    if v in xs then
      var i := IndexOf(xs, v);
      assert xs == xs[..i] + [v] + xs[i + 1..];
      xs[..i] + xs[i + 1..]
    else xs + [v]
  }

  /** The new field value `toggleOption` hands to `onValueChange`. */
  function ToggleValue(value: string, v: string): string {
    Join(ToggleList(ParseSelected(value), v), ", ")
  }

  lemma ToggleKeepsTokens(xs: seq<string>, v: string)
    requires AllTokens(xs) && IsToken(v)
    ensures AllTokens(ToggleList(xs, v))
  {
    var r := ToggleList(xs, v);
    if v in xs {
      var i :| 0 <= i < |xs| && xs[i] == v && v !in xs[..i] && r == xs[..i] + xs[i + 1..];
      forall k | 0 <= k < |r| ensures IsToken(r[k]) {
        if k < i { assert r[k] == xs[k]; } else { assert r[k] == xs[k + 1]; }
      }
    }
  }

  /** Reading the field after a toggle gives the toggled list: the written
      string encodes exactly the list `toggleOption` built. */
  lemma ParseAfterToggle(value: string, v: string)
    requires IsToken(v)
    ensures ParseSelected(ToggleValue(value, v)) == ToggleList(ParseSelected(value), v)
  {
    ToggleKeepsTokens(ParseSelected(value), v);
    ParseJoin(ToggleList(ParseSelected(value), v));
  }

  /** Toggling an absent value twice restores the field's value. */
  lemma ToggleTwice(xs: seq<string>, v: string)
    requires AllTokens(xs) && IsToken(v) && v !in xs
    ensures ToggleValue(ToggleValue(Join(xs, ", "), v), v) == Join(xs, ", ")
  {
    ParseJoin(xs);
    ParseAfterToggle(Join(xs, ", "), v);
    ToggleAppended(xs, v);
  }

  /** Toggling the value just appended removes it again. */
  lemma ToggleAppended(xs: seq<string>, v: string)
    requires v !in xs
    ensures ToggleList(xs + [v], v) == xs
  {
    var ys := xs + [v];
    var r := ToggleList(ys, v);
    var i :| 0 <= i < |ys| && ys[i] == v && v !in ys[..i] && r == ys[..i] + ys[i + 1..];
    assert ys[..|xs|] == xs;
  }

  /** Whether the option list shows `optionValue` ticked (`selectedValues.includes`). */
  predicate IsSelected(value: string, optionValue: string) {
    optionValue in ParseSelected(value)
  }

  /** `a` is obtained from `b` by deleting elements. */
  predicate IsSubsequence<T(==)>(a: seq<T>, b: seq<T>)
    decreases |b|
  {
    if |a| == 0 then true
    else if |b| == 0 then false
    else if a[0] == b[0] then IsSubsequence(a[1..], b[1..])
    else IsSubsequence(a, b[1..])
  }

  /** `options.filter(opt => selectedValues.includes(opt.value))`. */
  function SelectedOptions(options: seq<PickerOption>, selected: seq<string>): (r: seq<PickerOption>)
    ensures forall o :: o in r <==> o in options && o.value in selected
    ensures IsSubsequence(r, options)
    ensures forall o :: multiset(r)[o] == if o.value in selected then multiset(options)[o] else 0
  {
    if |options| == 0 then []
    else
      var rest := SelectedOptions(options[1..], selected);
      assert options == [options[0]] + options[1..];
      if options[0].value in selected then [options[0]] + rest else rest
  }

  /** The labels shown in the closed picker: those of the options whose value
      is selected, in the order of the option list. */
  function SelectedLabels(options: seq<PickerOption>, value: string): (labels: seq<string>)
    ensures |labels| <= |options|
  {
    var chosen := SelectedOptions(options, ParseSelected(value));
    SubsequenceLength(chosen, options);
    seq(|chosen|, i requires 0 <= i < |chosen| => chosen[i].caption)
  }

  /** A label is shown exactly when some option carrying it is selected. */
  lemma SelectedLabelsExact(options: seq<PickerOption>, value: string, l: string)
    ensures l in SelectedLabels(options, value) <==> exists o :: o in options && IsSelected(value, o.value) && o.caption == l
  {
    if l in SelectedLabels(options, value) {
      ShownLabelIsSelected(options, value, l);
    }
    if exists o :: o in options && IsSelected(value, o.value) && o.caption == l {
      var o :| o in options && IsSelected(value, o.value) && o.caption == l;
      SelectedLabelIsShown(options, value, o);
    }
  }

  lemma ShownLabelIsSelected(options: seq<PickerOption>, value: string, l: string)
    requires l in SelectedLabels(options, value)
    ensures exists o :: o in options && IsSelected(value, o.value) && o.caption == l
  {
    var chosen := SelectedOptions(options, ParseSelected(value));
    var labels := SelectedLabels(options, value);
    var i :| 0 <= i < |labels| && labels[i] == l;
    assert chosen[i] in chosen;
  }

  lemma SelectedLabelIsShown(options: seq<PickerOption>, value: string, o: PickerOption)
    requires o in options && IsSelected(value, o.value)
    ensures o.caption in SelectedLabels(options, value)
  {
    var chosen := SelectedOptions(options, ParseSelected(value));
    assert o in chosen;
    var i :| 0 <= i < |chosen| && chosen[i] == o;
    assert SelectedLabels(options, value)[i] == o.caption;
  }

  lemma {:induction false} SubsequenceLength<T>(a: seq<T>, b: seq<T>)
    requires IsSubsequence(a, b)
    ensures |a| <= |b|
    decreases |b|
  {
    if |a| > 0 {
      if a[0] == b[0] {
        SubsequenceLength(a[1..], b[1..]);
      } else {
        SubsequenceLength(a, b[1..]);
      }
    }
  }
}

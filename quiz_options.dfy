/** The development server's quiz-option normaliser. Stored questions keep
    their answer options either as an array of strings or as a four-slot
    object `{correct, close, wrong1, wrong2}` (older rows use the aliases
    `obviouslyWrong` and `funnyWrong`). Reading turns the object into an
    array for the frontend; saving turns an array into the object with a
    length heuristic. */
module QuizOptions {
  import Js
  import Strings
  import Seqs

  function AsValues(options: seq<string>): (vs: seq<Js.Value>)
    ensures |vs| == |options|
    ensures forall i | 0 <= i < |options| :: vs[i] == Js.Str(options[i])
  {
    seq(|options|, i requires 0 <= i < |options| => Js.Str(options[i]))
  }

  // ---------------------------------------------------------------------
  // Read path

  /** `[o.correct, o.close, o.wrong1 || o.obviouslyWrong, o.wrong2 || o.funnyWrong]` */
  function SlotValues(o: Js.Object): (c: seq<Js.Value>)
    ensures |c| == 4
  {
    [ Js.Get(o, "correct"),
      Js.Get(o, "close"),
      Js.Or(Js.Get(o, "wrong1"), Js.Get(o, "obviouslyWrong")),
      Js.Or(Js.Get(o, "wrong2"), Js.Get(o, "funnyWrong")) ]
  }

  /** The filter `opt => opt && opt.trim()` keeps a string that is not blank. */
  predicate KeptOption(v: Js.Value) {
    v.Str? && !Strings.Blank(v.s)
  }

  /** A truthy value that is not a string has no `trim` method: the filter
      throws a TypeError on it. */
  predicate NotTrimmable(v: Js.Value) {
    Js.Truthy(v) && !v.Str?
  }

  datatype Filtered = Filtered(options: seq<string>) | TrimTypeError

  /** `cands.filter(opt => opt && opt.trim())`: the kept strings, in their
      order, unless some element makes `trim` throw. */
  function FilterOptions(cands: seq<Js.Value>): (r: Filtered)
    ensures r.TrimTypeError? <==> exists i | 0 <= i < |cands| :: NotTrimmable(cands[i])
    ensures r.Filtered? ==> |r.options| <= |cands|
    decreases |cands|
  {
    if |cands| == 0 then Filtered([])
    else
      var head := cands[0];
      match FilterOptions(cands[1..])
      case TrimTypeError => TrimTypeError
      case Filtered(rest) =>
        if NotTrimmable(head) then TrimTypeError
        else if KeptOption(head) then Filtered([head.s] + rest)
        else Filtered(rest)
  }

  /** The filter keeps exactly the non-blank strings. */
  lemma {:induction false} FilterMembers(cands: seq<Js.Value>)
    requires FilterOptions(cands).Filtered?
    ensures forall x :: x in FilterOptions(cands).options <==> Js.Str(x) in cands && !Strings.Blank(x)
    decreases |cands|
  {
    if |cands| > 0 {
      FilterMembers(cands[1..]);
      assert cands == [cands[0]] + cands[1..];
    }
  }

  /** The filter keeps every occurrence of a non-blank string: each one
      appears as often as it does among the candidates. */
  lemma {:induction false} FilterCounts(cands: seq<Js.Value>)
    requires FilterOptions(cands).Filtered?
    ensures forall x :: multiset(FilterOptions(cands).options)[x] ==
                          if Strings.Blank(x) then 0 else multiset(cands)[Js.Str(x)]
    decreases |cands|
  {
    if |cands| > 0 {
      var head := cands[0];
      var tail := cands[1..];
      FilterCounts(tail);
      var rest := FilterOptions(tail).options;
      var kept := FilterOptions(cands).options;
      assert cands == [head] + tail;
      assert kept == (if KeptOption(head) then [head.s] + rest else rest);
      forall x
        ensures multiset(kept)[x] == if Strings.Blank(x) then 0 else multiset(cands)[Js.Str(x)]
      {
        Seqs.CountCons(head, tail, Js.Str(x));
        if KeptOption(head) {
          Seqs.CountCons(head.s, rest, x);
        }
      }
    }
  }

  /** The filter keeps a list of non-blank strings as it is. */
  lemma {:induction false} FilterStrings(xs: seq<string>)
    requires forall i | 0 <= i < |xs| :: !Strings.Blank(xs[i])
    ensures FilterOptions(AsValues(xs)) == Filtered(xs)
    decreases |xs|
  {
    if |xs| > 0 {
      FilterStrings(xs[1..]);
      assert AsValues(xs)[1..] == AsValues(xs[1..]);
      assert [xs[0]] + xs[1..] == xs;
    }
  }

  /** The filter keeps the options in the order they had. */
  lemma {:induction false} FilterKeepsOrder(cands: seq<Js.Value>)
    requires FilterOptions(cands).Filtered?
    ensures Seqs.IsSubsequence(AsValues(FilterOptions(cands).options), cands)
    decreases |cands|
  {
    if |cands| > 0 {
      FilterKeepsOrder(cands[1..]);
      var rest := FilterOptions(cands[1..]).options;
      if KeptOption(cands[0]) {
        assert FilterOptions(cands).options == [cands[0].s] + rest;
        var kept := AsValues([cands[0].s] + rest);
        assert kept != [] && kept[0] == cands[0];
        assert kept[1..] == AsValues(rest);
      } else if rest != [] {
        // a dropped head is no string the filter kept, so it cannot match
        FilterMembers(cands[1..]);
        assert rest[0] in rest;
        assert AsValues(rest)[0] != cands[0];
      }
    }
  }

  datatype ReadResult = Unchanged | Rewritten(options: seq<string>) | ReadTypeError

  /** The value the options column holds once a string has been through
      `JSON.parse`; a string that does not parse stays as it is. */
  function Parsed(stored: Js.Value, parse: string -> Js.Option<Js.Value>): Js.Value {
    if stored.Str? then
      match parse(stored.s)
      case Some(p) => p
      case None => stored
    else stored
  }

  /** What the read path does to one question's `options`: only a truthy
      value that is, or parses to, a non-array object is rewritten. */
  function ReadOptions(stored: Js.Value, parse: string -> Js.Option<Js.Value>): (r: ReadResult)
    ensures !Js.Truthy(stored) || stored.Arr? ==> r == Unchanged
    ensures stored.Str? && parse(stored.s).None? ==> r == Unchanged
    ensures stored.Str? && parse(stored.s).Some? && parse(stored.s).value.Arr? ==> r == Unchanged
    ensures r == Unchanged <==> !Js.Truthy(stored) || !Parsed(stored, parse).Obj?
    ensures r.Rewritten? ==> |r.options| <= 4
    ensures r.Rewritten? ==> forall x | x in r.options :: !Strings.Blank(x)
    ensures r == ReadTypeError <==>
              Js.Truthy(stored) && Parsed(stored, parse).Obj? &&
              exists i | 0 <= i < 4 :: NotTrimmable(SlotValues(Parsed(stored, parse).fields)[i])
    ensures Js.Truthy(stored) && Parsed(stored, parse).Obj? &&
            FilterOptions(SlotValues(Parsed(stored, parse).fields)).Filtered? ==>
              r == Rewritten(FilterOptions(SlotValues(Parsed(stored, parse).fields)).options)
  {
    if !Js.Truthy(stored) then Unchanged
    else
      var options := Parsed(stored, parse);
      if options.Obj? then
        match FilterOptions(SlotValues(options.fields))
        case Filtered(list) =>
          FilterMembers(SlotValues(options.fields));
          Rewritten(list)
        case TrimTypeError => ReadTypeError
      else Unchanged
  }

  /** One row after the read path; None when it throws. */
  function NormalizeRow(row: Js.Object, parse: string -> Js.Option<Js.Value>): (r: Js.Option<Js.Object>)
    ensures r.None? <==> ReadOptions(Js.Get(row, "options"), parse) == ReadTypeError
    ensures ReadOptions(Js.Get(row, "options"), parse) == Unchanged ==> r == Js.Some(row)
    ensures ReadOptions(Js.Get(row, "options"), parse).Rewritten? ==>
              r == Js.Some(row["options" := Js.Arr(AsValues(ReadOptions(Js.Get(row, "options"), parse).options))])
    ensures r.Some? ==> r.value.Keys == row.Keys || r.value.Keys == row.Keys + {"options"}
    ensures r.Some? ==> forall k | k in row && k != "options" :: r.value[k] == row[k]
  {
    match ReadOptions(Js.Get(row, "options"), parse)
    case Unchanged => Js.Some(row)
    case Rewritten(list) => Js.Some(row["options" := Js.Arr(AsValues(list))])
    case ReadTypeError => Js.None
  }

  /** The `forEach` that rewrites each question's options in place. A
      TypeError stops it: the rows before the failing one are rewritten, the
      rest untouched, and the request then fails. */
  method NormalizeQuestions(rows: array<Js.Object>, parse: string -> Js.Option<Js.Value>) returns (ok: bool)
    modifies rows
    ensures ok ==> forall i | 0 <= i < rows.Length ::
                     NormalizeRow(old(rows[i]), parse).Some? && rows[i] == NormalizeRow(old(rows[i]), parse).value
    ensures !ok ==> exists k | 0 <= k < rows.Length ::
                      && NormalizeRow(old(rows[k]), parse).None?
                      && (forall i | 0 <= i < k :: NormalizeRow(old(rows[i]), parse).Some? &&
                                                   rows[i] == NormalizeRow(old(rows[i]), parse).value)
                      && (forall i | k <= i < rows.Length :: rows[i] == old(rows[i]))
  {
    var i := 0;
    while i < rows.Length
      invariant 0 <= i <= rows.Length
      invariant forall j | 0 <= j < i ::
                  NormalizeRow(old(rows[j]), parse).Some? && rows[j] == NormalizeRow(old(rows[j]), parse).value
      invariant forall j | i <= j < rows.Length :: rows[j] == old(rows[j])
    {
      match NormalizeRow(rows[i], parse) {
        case None =>
          return false;
        case Some(row) =>
          rows[i] := row;
      }
      i := i + 1;
    }
    return true;
  }

  // ---------------------------------------------------------------------
  // Write path

  /** `opt.length`: strings and arrays have one, an object has whatever its
      own "length" property holds, and numbers and booleans have none. */
  function LengthOf(v: Js.Value): (r: Js.Value)
    ensures v.Str? ==> r == Js.Num(|v.s|)
    ensures v.Obj? ==> r == Js.Get(v.fields, "length")
  {
    match v
    case Str(s) => Js.Num(|s|)
    case Arr(items) => Js.Num(|items|)
    case Obj(fields) => Js.Get(fields, "length")
    case _ => Js.Undefined
  }

  /** `opt !== correct && opt.length > 10` (long) or `... < 10` (short); the
      comparison converts the length with `Number`, and NaN compares false. */
  predicate Selects(opt: Js.Value, correct: Js.Value, long: bool) {
    && !Js.StrictEquals(opt, correct)
    && var n := Js.ToNumber(LengthOf(opt));
    && n.Some?
    && (if long then n.value > 10 else n.value < 10)
  }

  /** Unless `opt === correct` already decided the test, it throws: reading
      `.length` of undefined or null, or converting with `Number` a length
      that is an object with its own "toString" (or an array holding one). */
  predicate ThrowsOnLength(opt: Js.Value, correct: Js.Value) {
    !Js.StrictEquals(opt, correct) && (opt.Undefined? || opt.Null? || Js.ToStrThrows(LengthOf(opt)))
  }

  datatype FindResult = FoundAt(index: nat) | NotFound | FindTypeError

  /** `options.find(opt => opt !== correct && opt.length > 10)` (or `< 10`),
      as the index of the element it returns. */
  function Find(options: seq<Js.Value>, correct: Js.Value, long: bool): (r: FindResult)
    ensures r.FoundAt? ==> r.index < |options| && Selects(options[r.index], correct, long)
    ensures r.FoundAt? ==> forall j | 0 <= j < r.index :: !Selects(options[j], correct, long) && !ThrowsOnLength(options[j], correct)
    ensures r.NotFound? <==> forall j | 0 <= j < |options| :: !Selects(options[j], correct, long) && !ThrowsOnLength(options[j], correct)
    ensures r.FindTypeError? ==>
              exists k | 0 <= k < |options| :: ThrowsOnLength(options[k], correct) &&
                forall j | 0 <= j < k :: !Selects(options[j], correct, long) && !ThrowsOnLength(options[j], correct)
    decreases |options|
  {
    if |options| == 0 then NotFound
    else if ThrowsOnLength(options[0], correct) then FindTypeError
    else if Selects(options[0], correct, long) then FoundAt(0)
    else
      match Find(options[1..], correct, long)
      case FoundAt(i) => FoundAt(i + 1)
      case NotFound => NotFound
      case FindTypeError =>
        assert forall k | 0 <= k < |options[1..]| :: options[1..][k] == options[k + 1];
        FindTypeError
  }

  /** An object whose "length" is the string "20" counts as long: `"20" > 10`
      converts the string. */
  lemma StringLengthIsConverted()
    ensures Find([Js.Obj(map["length" := Js.Str("20")])], Js.Str("A"), true) == FoundAt(0)
  {
    assert Js.ToNumber(Js.Str("20")) == Js.Some(20) by {
      Strings.DigitsPair('2', '0');
    }
  }

  /** An object whose "length" is null counts as short: `null < 10` is
      `0 < 10`. */
  lemma NullLengthIsShort()
    ensures Find([Js.Obj(map["length" := Js.Null])], Js.Str("A"), false) == FoundAt(0)
  {
  }

  /** An object whose "length" is itself an object with its own "toString"
      makes `opt.length > 10` throw in `Number`. */
  lemma OwnToStringLengthThrows()
    ensures Find([Js.Obj(map["length" := Js.Obj(map["toString" := Js.Num(1)])])], Js.Str("A"), true) == FindTypeError
  {
  }

  /** `options[i]`, undefined past the end. */
  function At(options: seq<Js.Value>, i: int): (v: Js.Value)
    ensures 0 <= i < |options| ==> v == options[i]
    ensures !(0 <= i < |options|) ==> v == Js.Undefined
  {
    if 0 <= i < |options| then options[i] else Js.Undefined
  }

  datatype Slots = Slots(correct: Js.Value, close: Js.Value, wrong1: Js.Value, wrong2: Js.Value)

  /** `find(...) || options[fallback]` */
  function Pick(options: seq<Js.Value>, found: FindResult, fallback: nat): Js.Value
    requires found.FoundAt? ==> found.index < |options|
  {
    match found
    case FoundAt(i) => Js.Or(options[i], At(options, fallback))
    case _ => At(options, fallback)
  }

  /** The four-slot object built from an options array; None when one of the
      `find` calls throws. */
  function WriteSlots(options: seq<Js.Value>, correct: Js.Value): (r: Js.Option<Slots>)
    ensures r.None? <==> Find(options, correct, true).FindTypeError? || Find(options, correct, false).FindTypeError?
    ensures r.Some? ==> r.value.correct == correct
    ensures r.Some? ==> r.value.wrong2 == At(options, |options| - 1)
    ensures r.Some? ==> r.value.close == Pick(options, Find(options, correct, true), 1)
    ensures r.Some? ==> r.value.wrong1 == Pick(options, Find(options, correct, false), 2)
  {
    var long := Find(options, correct, true);
    if long.FindTypeError? then Js.None
    else
      var short := Find(options, correct, false);
      if short.FindTypeError? then Js.None
      else Js.Some(Slots(correct, Pick(options, long, 1), Pick(options, short, 2), At(options, |options| - 1)))
  }

  /** The first string other than `correct` whose length is over 10 (or
      under 10), if any: the `find` calls on an array of strings. */
  function FirstOther(options: seq<string>, correct: string, long: bool): (r: Js.Option<nat>)
    ensures r.Some? ==> r.value < |options| && options[r.value] != correct
    ensures r.Some? ==> if long then |options[r.value]| > 10 else |options[r.value]| < 10
    ensures r.Some? ==> forall j | 0 <= j < r.value ::
                          options[j] == correct || (if long then |options[j]| <= 10 else |options[j]| >= 10)
    ensures r.None? ==> forall j | 0 <= j < |options| ::
                          options[j] == correct || (if long then |options[j]| <= 10 else |options[j]| >= 10)
    decreases |options|
  {
    if |options| == 0 then Js.None
    else if options[0] != correct && (if long then |options[0]| > 10 else |options[0]| < 10) then Js.Some(0)
    else
      match FirstOther(options[1..], correct, long)
      case Some(i) => Js.Some(i + 1)
      case None => Js.None
  }

  /** On an array of strings with a string answer nothing throws; `close` is
      the first other option longer than 10 characters, else `options[1]`;
      `wrong1` the first other option shorter than 10 characters unless that
      one is empty, else `options[2]`; `wrong2` the last option. */
  lemma {:induction false} WriteStringSlots(options: seq<string>, correct: string)
    ensures WriteSlots(AsValues(options), Js.Str(correct)).Some?
    ensures var s := WriteSlots(AsValues(options), Js.Str(correct)).value;
            var long := FirstOther(options, correct, true);
            var short := FirstOther(options, correct, false);
            && s.correct == Js.Str(correct)
            && s.close == (if long.Some? then Js.Str(options[long.value]) else At(AsValues(options), 1))
            && s.wrong1 == (if short.Some? && options[short.value] != "" then Js.Str(options[short.value])
                            else At(AsValues(options), 2))
            && s.wrong2 == At(AsValues(options), |options| - 1)
  {
    FindOnStrings(options, correct, true);
    FindOnStrings(options, correct, false);
  }

  /** `find` over strings agrees with `FirstOther` and never throws. */
  lemma {:induction false} FindOnStrings(options: seq<string>, correct: string, long: bool)
    ensures Find(AsValues(options), Js.Str(correct), long) ==
              match FirstOther(options, correct, long)
              case Some(i) => FoundAt(i)
              case None => NotFound
    decreases |options|
  {
    if |options| > 0 {
      assert AsValues(options)[1..] == AsValues(options[1..]);
      FindOnStrings(options[1..], correct, long);
    }
  }

  /** The object stored for the slots: JSON.stringify leaves out the slots
      that are undefined. */
  function SlotsObject(s: Slots): (o: Js.Object)
    ensures Js.Get(o, "correct") == s.correct && Js.Get(o, "close") == s.close
    ensures Js.Get(o, "wrong1") == s.wrong1 && Js.Get(o, "wrong2") == s.wrong2
    ensures "obviouslyWrong" !in o && "funnyWrong" !in o
  {
    var all := map["correct" := s.correct, "close" := s.close, "wrong1" := s.wrong1, "wrong2" := s.wrong2];
    map k | k in all && !all[k].Undefined? :: all[k]
  }

  /** A slot value that came from the options array, or none at all. */
  predicate FromOptions(v: Js.Value, options: seq<string>) {
    v.Undefined? || (v.Str? && v.s in options)
  }

  /** Reading back an object whose first slot is the non-blank answer and
      whose other slots came from the options array. */
  lemma ReadSavedSlots(o: Js.Object, correct: string, options: seq<string>, parse: string -> Js.Option<Js.Value>)
    requires !Strings.Blank(correct)
    requires SlotValues(o)[0] == Js.Str(correct)
    requires forall i | 1 <= i < 4 :: FromOptions(SlotValues(o)[i], options)
    ensures var read := ReadOptions(Js.Obj(o), parse);
            && read.Rewritten?
            && 1 <= |read.options| && read.options[0] == correct
            && forall x | x in read.options :: x == correct || x in options
  {
    var cands := SlotValues(o);
    var tail := FilterOptions(cands[1..]);
    assert tail.Filtered?;
    FilterMembers(cands[1..]);
    assert forall x | x in tail.options :: x in options;
    assert FilterOptions(cands) == Filtered([correct] + tail.options);
    ReadObject(o, parse);
  }

  /** How the read path treats an object. */
  lemma ReadObject(o: Js.Object, parse: string -> Js.Option<Js.Value>)
    ensures ReadOptions(Js.Obj(o), parse) ==
              match FilterOptions(SlotValues(o))
              case Filtered(list) => Rewritten(list)
              case TrimTypeError => ReadTypeError
  {
  }

  /** Saving an array of strings and reading it back gives the correct
      answer first, followed only by options of the original array. */
  lemma WriteThenRead(options: seq<string>, correct: string, parse: string -> Js.Option<Js.Value>)
    requires !Strings.Blank(correct)
    ensures WriteSlots(AsValues(options), Js.Str(correct)).Some?
    ensures var stored := Js.Obj(SlotsObject(WriteSlots(AsValues(options), Js.Str(correct)).value));
            var read := ReadOptions(stored, parse);
            && read.Rewritten?
            && 1 <= |read.options| && read.options[0] == correct
            && forall x | x in read.options :: x == correct || x in options
  {
    WriteStringSlots(options, correct);
    var slots := WriteSlots(AsValues(options), Js.Str(correct)).value;
    AtFromOptions(options, 1);
    AtFromOptions(options, 2);
    AtFromOptions(options, |options| - 1);
    SlotsFromOptions(slots, correct, options);
    ReadSavedSlots(SlotsObject(slots), correct, options, parse);
  }

  /** An element of the array, or undefined past its end. */
  lemma AtFromOptions(options: seq<string>, i: int)
    ensures FromOptions(At(AsValues(options), i), options)
  {
    if 0 <= i < |options| {
      assert options[i] in options;
    }
  }

  /** The stored object's slots, as the read path sees them, still come
      from the options array. */
  lemma SlotsFromOptions(slots: Slots, correct: string, options: seq<string>)
    requires slots.correct == Js.Str(correct)
    requires FromOptions(slots.close, options) && FromOptions(slots.wrong1, options) && FromOptions(slots.wrong2, options)
    ensures SlotValues(SlotsObject(slots))[0] == Js.Str(correct)
    ensures forall i | 1 <= i < 4 :: FromOptions(SlotValues(SlotsObject(slots))[i], options)
  {
    var c := SlotValues(SlotsObject(slots));
    assert c[1] == slots.close;
    assert c[2] == Js.Or(slots.wrong1, Js.Undefined);
    assert c[3] == Js.Or(slots.wrong2, Js.Undefined);
  }

  /** Worked example: an array saved with answer "A" is stored slot by slot. */
  lemma SaveExample()
    ensures WriteSlots(AsValues(["A", "Bvalue12345", "C", "D"]), Js.Str("A"))
            == Js.Some(Slots(Js.Str("A"), Js.Str("Bvalue12345"), Js.Str("C"), Js.Str("D")))
  {
    var options := ["A", "Bvalue12345", "C", "D"];
    WriteStringSlots(options, "A");
    assert FirstOther(options, "A", true) == Js.Some(1);
    assert FirstOther(options, "A", false) == Js.Some(2);
  }

  /** Four saved slots holding non-blank strings read back as those four
      strings, in slot order. */
  lemma ReadFourSlots(a: string, b: string, c: string, d: string, parse: string -> Js.Option<Js.Value>)
    requires !Strings.Blank(a) && !Strings.Blank(b) && !Strings.Blank(c) && !Strings.Blank(d)
    ensures ReadOptions(Js.Obj(SlotsObject(Slots(Js.Str(a), Js.Str(b), Js.Str(c), Js.Str(d)))), parse)
            == Rewritten([a, b, c, d])
  {
    var o := SlotsObject(Slots(Js.Str(a), Js.Str(b), Js.Str(c), Js.Str(d)));
    var xs := [a, b, c, d];
    assert c != "" && d != "";
    assert SlotValues(o) == AsValues(xs);
    FilterStrings(xs);
    ReadObject(o, parse);
  }

  /** An empty `close` slot is dropped on read: the other three come back. */
  lemma EmptyCloseDropped(a: string, c: string, d: string, parse: string -> Js.Option<Js.Value>)
    requires !Strings.Blank(a) && !Strings.Blank(c) && !Strings.Blank(d)
    ensures ReadOptions(Js.Obj(map["correct" := Js.Str(a), "close" := Js.Str(""), "wrong1" := Js.Str(c), "wrong2" := Js.Str(d)]), parse)
            == Rewritten([a, c, d])
  {
    var o := map["correct" := Js.Str(a), "close" := Js.Str(""), "wrong1" := Js.Str(c), "wrong2" := Js.Str(d)];
    assert c != "" && d != "";
    var tail := [c, d];
    assert SlotValues(o) == [Js.Str(a)] + ([Js.Str("")] + AsValues(tail));
    FilterStrings(tail);
    FilterDropped("", AsValues(tail));
    FilterKept(a, [Js.Str("")] + AsValues(tail));
    ReadObject(o, parse);
  }

  /** The filter keeps a leading non-blank string. */
  lemma FilterKept(x: string, rest: seq<Js.Value>)
    requires !Strings.Blank(x)
    ensures FilterOptions([Js.Str(x)] + rest) ==
              match FilterOptions(rest)
              case Filtered(kept) => Filtered([x] + kept)
              case TrimTypeError => TrimTypeError
  {
    assert ([Js.Str(x)] + rest)[1..] == rest;
  }

  /** The filter drops a leading blank string. */
  lemma FilterDropped(x: string, rest: seq<Js.Value>)
    requires Strings.Blank(x)
    ensures FilterOptions([Js.Str(x)] + rest) == FilterOptions(rest)
  {
    assert ([Js.Str(x)] + rest)[1..] == rest;
  }

  // ---------------------------------------------------------------------
  // Saving a question

  /** `coachingTips || coaching_tips` as stored: an array as it is, a single
      string wrapped in a one-element array, any other truthy value as it
      is, and nothing (SQL NULL) when falsy. */
  function TipsForStorage(tips: Js.Value): (r: Js.Option<Js.Value>)
    ensures r.None? <==> !Js.Truthy(tips)
    ensures tips.Arr? ==> r == Js.Some(tips)
    ensures tips.Str? && tips.s != "" ==> r == Js.Some(Js.Arr([tips]))
    ensures r.Some? && (tips.Arr? || tips.Str?) ==> r.value.Arr?
    ensures Js.Truthy(tips) && !tips.Arr? && !tips.Str? ==> r == Js.Some(tips)
  {
    if !Js.Truthy(tips) then Js.None
    else if tips.Arr? then Js.Some(tips)
    else if tips.Str? then Js.Some(Js.Arr([tips]))
    else Js.Some(tips)
  }

  /** The key a question is saved under when the request gives none. */
  function LegacyKey(now: nat): (k: string)
    ensures Strings.StartsWith(k, "legacy-key-")
    ensures |k| > 11 && forall i | 11 <= i < |k| :: Strings.IsDigit(k[i])
    ensures Strings.DigitsValue(k[11..]) == now
    ensures now > 0 ==> k[11] != '0'
  {
    var digits := Strings.Decimal(now);
    Strings.DecimalRoundTrip(now);
    assert ("legacy-key-" + digits)[11..] == digits;
    "legacy-key-" + digits
  }

  /** The values bound into the INSERT of a saved question. */
  datatype SaveRow = SaveRow(
    question: Js.Value, imageUrl: Js.Value, s3Key: Js.Value, gestureType: Js.Value,
    correctAnswer: Js.Value, options: Js.Value, explanation: Js.Value,
    coachingTips: Js.Option<Js.Value>, reuseCount: int)

  /** The save-question / save-quiz branch up to the INSERT: field aliases,
      the legacy key, the option and tip formatting. None when the option
      heuristic throws. `now` is `Date.now()`. */
  method PrepareSave(body: Js.Object, now: nat) returns (row: Js.Option<SaveRow>)
    ensures var answer := Js.Or(Js.Get(body, "correctAnswer"), Js.Get(body, "correct_answer"));
            var options := Js.Get(body, "options");
            && (row.None? <==> options.Arr? && WriteSlots(options.items, answer).None?)
            && (row.Some? ==> && row.value.correctAnswer == answer
                              && row.value.options == (if options.Arr? then Js.Obj(SlotsObject(WriteSlots(options.items, answer).value))
                                                       else options))
    ensures row.Some? ==>
              && row.value.imageUrl == Js.Or(Js.Get(body, "imageUrl"), Js.Get(body, "image_url"))
              && row.value.gestureType == Js.Or(Js.Get(body, "gestureType"), Js.Get(body, "gesture_type"))
              && row.value.s3Key == Js.Or(Js.Get(body, "s3_key"), Js.Str(LegacyKey(now)))
              && Js.Truthy(row.value.s3Key)
              && row.value.coachingTips == TipsForStorage(Js.Or(Js.Get(body, "coachingTips"), Js.Get(body, "coaching_tips")))
              && row.value.question == Js.Get(body, "question")
              && row.value.explanation == Js.Get(body, "explanation")
              && row.value.reuseCount == 0
  {
    var finalImageUrl := Js.Or(Js.Get(body, "imageUrl"), Js.Get(body, "image_url"));
    var finalGestureType := Js.Or(Js.Get(body, "gestureType"), Js.Get(body, "gesture_type"));
    var finalCorrectAnswer := Js.Or(Js.Get(body, "correctAnswer"), Js.Get(body, "correct_answer"));
    var finalCoachingTips := Js.Or(Js.Get(body, "coachingTips"), Js.Get(body, "coaching_tips"));
    var finalS3Key := Js.Or(Js.Get(body, "s3_key"), Js.Str(LegacyKey(now)));

    var options := Js.Get(body, "options");
    var finalOptions := options;
    if options.Arr? {
      var slots := WriteSlots(options.items, finalCorrectAnswer);
      if slots.None? {
        return Js.None;
      }
      finalOptions := Js.Obj(SlotsObject(slots.value));
    }

    var finalCoachingTipsJson := TipsForStorage(finalCoachingTips);

    row := Js.Some(SaveRow(
      Js.Get(body, "question"), finalImageUrl, finalS3Key, finalGestureType,
      finalCorrectAnswer, finalOptions, Js.Get(body, "explanation"),
      finalCoachingTipsJson, 0));
  }
}

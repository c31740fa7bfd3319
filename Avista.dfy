/**
  The retail-rate scraper (scripts/scripts/fetch_seb_avista.py): from the cell texts
  of the bank's rate table it keeps the rows of three countries, reads their buying
  and selling rates from Swedish number text, and writes one dated CSV snapshot.

  The table arrives as the stripped texts of each row's `td` cells; fetching and
  parsing the page are not modelled. Python's `float()` on text is the parameter
  `parseFloat` (`None` where `float()` raises).
*/
module Avista {
  import opened Wrappers
  import opened Numbers
  import opened Files

  const NoBreakSpace: char := '\U{00A0}'

  /** The first-cell texts whose rows are kept, exactly as the page writes them. */
  const TargetCountries: set<string> := {"Euro", "Storbritannien", "USA"}

  // ---------------------------------------------------------------------------
  // clean_number

  /** Python's `s.replace(target, replacement)` for a one-character `target`. */
  function Replace(s: string, target: char, replacement: string): (r: string)
    ensures target !in replacement ==> target !in r
    ensures forall c :: c != target && c !in replacement ==> (c in r <==> c in s)
  {
    if s == [] then [] else (if s[0] == target then replacement else [s[0]]) + Replace(s[1..], target, replacement)
  }

  lemma {:induction false} ReplaceConcat(a: string, b: string, target: char, replacement: string)
    ensures Replace(a + b, target, replacement) == Replace(a, target, replacement) + Replace(b, target, replacement)
  {
    if a != [] {
      assert (a + b)[0] == a[0];
      assert (a + b)[1..] == a[1..] + b;
      ReplaceConcat(a[1..], b, target, replacement);
      var head := if a[0] == target then replacement else [a[0]];
      calc {
        Replace(a + b, target, replacement);
        head + Replace(a[1..] + b, target, replacement);
        head + (Replace(a[1..], target, replacement) + Replace(b, target, replacement));
        (head + Replace(a[1..], target, replacement)) + Replace(b, target, replacement);
      }
    } else {
      assert a + b == b;
    }
  }

  /** The text `clean_number` hands to `float()`: blanks removed, decimal comma made a point. */
  function CleanText(txt: string): (t: string)
    ensures NoBreakSpace !in t && ' ' !in t && '\t' !in t && ',' !in t
  {
    var t := Replace(Replace(Replace(txt, NoBreakSpace, ""), ' ', ""), '\t', "");
    Replace(t, ',', ".")
  }

  predicate IsBlank(c: char) {
    c == NoBreakSpace || c == ' ' || c == '\t'
  }

  /** What cleaning makes of one character. */
  function CleanChar(c: char): string {
    if IsBlank(c) then "" else if c == ',' then "." else [c]
  }

  /** Cleaning as one pass over the text, character by character, in order. */
  function Squeeze(s: string): (r: string)
    ensures |r| <= |s|
  {
    if s == [] then [] else CleanChar(s[0]) + Squeeze(s[1..])
  }

  lemma CleanTextConcat(a: string, b: string)
    ensures CleanText(a + b) == CleanText(a) + CleanText(b)
  {
    var t1a := Replace(a, NoBreakSpace, "");
    var t1b := Replace(b, NoBreakSpace, "");
    ReplaceConcat(a, b, NoBreakSpace, "");
    var t2a := Replace(t1a, ' ', "");
    var t2b := Replace(t1b, ' ', "");
    ReplaceConcat(t1a, t1b, ' ', "");
    var t3a := Replace(t2a, '\t', "");
    var t3b := Replace(t2b, '\t', "");
    ReplaceConcat(t2a, t2b, '\t', "");
    ReplaceConcat(t3a, t3b, ',', ".");
  }

  lemma CleanOneChar(c: char)
    ensures CleanText([c]) == CleanChar(c)
  {
    assert [c][0] == c && [c][1..] == [];
    var t1 := Replace([c], NoBreakSpace, "");
    assert t1 == (if c == NoBreakSpace then "" else [c]) + Replace([], NoBreakSpace, "");
    if c == NoBreakSpace {
      assert t1 == "";
    } else {
      assert t1 == [c];
      var t2 := Replace([c], ' ', "");
      assert t2 == (if c == ' ' then "" else [c]) + Replace([], ' ', "");
      if c != ' ' {
        assert t2 == [c];
        var t3 := Replace([c], '\t', "");
        assert t3 == (if c == '\t' then "" else [c]) + Replace([], '\t', "");
        if c != '\t' {
          assert Replace([c], ',', ".") == (if c == ',' then "." else [c]) + Replace([], ',', ".");
        }
      }
    }
  }

  /**
    The chain of replacements removes every no-break space, space and tab, turns every
    comma into a point, and keeps every other character in its original order.
  */
  lemma {:induction false} CleanTextIsPerCharacter(txt: string)
    ensures CleanText(txt) == Squeeze(txt)
  {
    if txt != [] {
      assert txt == [txt[0]] + txt[1..];
      CleanTextConcat([txt[0]], txt[1..]);
      CleanOneChar(txt[0]);
      CleanTextIsPerCharacter(txt[1..]);
    }
  }

  lemma {:induction false} SqueezeBlanks(s: string)
    requires forall i :: 0 <= i < |s| ==> IsBlank(s[i])
    ensures Squeeze(s) == ""
  {
    if s != [] {
      assert IsBlank(s[0]);
      SqueezeBlanks(s[1..]);
    }
  }

  lemma {:induction false} SqueezeDigits(s: string)
    requires IsDigits(s)
    ensures Squeeze(s) == s
  {
    if s != [] {
      assert IsDigit(s[0]);
      SqueezeDigits(s[1..]);
      assert s == [s[0]] + s[1..];
    }
  }

  /**
    `clean_number`: `None` stays `None`; cleaned text that is empty or a lone dash gives
    `None`; otherwise the result is whatever `float()` makes of the cleaned text, and
    text it cannot read gives `None` instead of an exception.
  */
  function CleanNumber(txt: Option<string>, parseFloat: string -> Option<real>): (r: Option<real>)
    ensures txt.None? ==> r.None?
    ensures r.Some? ==> txt.Some? && CleanText(txt.value) != "" && CleanText(txt.value) != "-"
    ensures r.Some? ==> parseFloat(CleanText(txt.value)) == r
    ensures txt.Some? && CleanText(txt.value) != "" && CleanText(txt.value) != "-" ==>
      r == parseFloat(CleanText(txt.value))
  {
    match txt
    case None => None
    case Some(s) =>
      var t := CleanText(s);
      if t == "" || t == "-" then None else parseFloat(t)
  }

  /** Text made only of blanks (spaces, tabs, no-break spaces) has no number. */
  lemma BlankTextIsNone(s: string, parseFloat: string -> Option<real>)
    requires forall i :: 0 <= i < |s| ==> IsBlank(s[i])
    ensures CleanNumber(Some(s), parseFloat) == None
  {
    CleanTextIsPerCharacter(s);
    SqueezeBlanks(s);
  }

  lemma {:induction false} SqueezeConcat(a: string, b: string)
    ensures Squeeze(a + b) == Squeeze(a) + Squeeze(b)
  {
    if a == [] {
      assert a + b == b;
    } else {
      assert (a + b)[0] == a[0];
      assert (a + b)[1..] == a[1..] + b;
      SqueezeConcat(a[1..], b);
    }
  }

  /** Digit groups as the page writes them: separated by single no-break spaces. */
  function Grouped(groups: seq<string>): string {
    if |groups| <= 1 then (if groups == [] then "" else groups[0])
    else groups[0] + [NoBreakSpace] + Grouped(groups[1..])
  }

  /** The digit groups written without separators. */
  function Joined(groups: seq<string>): string {
    if groups == [] then "" else groups[0] + Joined(groups[1..])
  }

  predicate AllDigits(groups: seq<string>) {
    forall i :: 0 <= i < |groups| ==> IsDigits(groups[i])
  }

  lemma {:induction false} JoinedDigits(groups: seq<string>)
    requires AllDigits(groups)
    ensures IsDigits(Joined(groups))
    ensures groups != [] ==> |Joined(groups)| >= |groups[0]|
  {
    if groups != [] {
      assert IsDigits(groups[0]);
      JoinedDigits(groups[1..]);
      var w := Joined(groups);
      assert w == groups[0] + Joined(groups[1..]);
      forall i | 0 <= i < |w|
        ensures IsDigit(w[i])
      {
        if i < |groups[0]| {
          assert w[i] == groups[0][i];
        } else {
          assert w[i] == Joined(groups[1..])[i - |groups[0]|];
        }
      }
    }
  }

  /** Cleaning drops the no-break spaces between digit groups and nothing else. */
  lemma {:induction false} SqueezeGrouped(groups: seq<string>)
    requires AllDigits(groups)
    ensures Squeeze(Grouped(groups)) == Joined(groups)
  {
    if |groups| == 1 {
      assert IsDigits(groups[0]);
      SqueezeDigits(groups[0]);
      assert Joined(groups[1..]) == "";
    } else if |groups| > 1 {
      assert IsDigits(groups[0]);
      SqueezeGrouped(groups[1..]);
      SqueezeDigits(groups[0]);
      var head := groups[0] + [NoBreakSpace];
      SqueezeConcat(groups[0], [NoBreakSpace]);
      assert Squeeze([NoBreakSpace]) == "" by {
        assert [NoBreakSpace][1..] == [];
      }
      SqueezeConcat(head, Grouped(groups[1..]));
    }
  }

  /** The cleaned text of grouped digits, a decimal comma and digits. */
  lemma CleanLocale(groups: seq<string>, frac: string)
    requires AllDigits(groups) && IsDigits(frac)
    ensures CleanText(Grouped(groups) + "," + frac) == Joined(groups) + "." + frac
  {
    var s := Grouped(groups) + "," + frac;
    CleanTextIsPerCharacter(s);
    SqueezeGrouped(groups);
    SqueezeDigits(frac);
    SqueezeConcat(Grouped(groups), ",");
    assert Squeeze(",") == "." by {
      assert ","[1..] == [];
    }
    SqueezeConcat(Grouped(groups) + ",", frac);
  }

  /**
    Swedish number text — digit groups separated by no-break spaces, a decimal comma and
    the decimals — is read, under the reference decimal reading, as the number it writes.
    One group is a number without thousands separator, such as "10,52".
  */
  lemma LocaleNumber(groups: seq<string>, frac: string)
    requires AllDigits(groups) && IsDigits(frac) && groups != [] && groups[0] != ""
    ensures IsDigits(Joined(groups))
    ensures CleanNumber(Some(Grouped(groups) + "," + frac), ParseDecimal)
         == Some(DecimalValue(Joined(groups), frac))
  {
    CleanLocale(groups, frac);
    JoinedDigits(groups);
    ParsePointed(Joined(groups), frac);
  }

  /** Digit groups separated by no-break spaces, without decimals, read as the whole number. */
  lemma LocaleWholeNumber(groups: seq<string>)
    requires AllDigits(groups) && groups != [] && groups[0] != ""
    ensures IsDigits(Joined(groups))
    ensures CleanNumber(Some(Grouped(groups)), ParseDecimal) == Some(DigitsValue(Joined(groups)) as real)
  {
    CleanTextIsPerCharacter(Grouped(groups));
    SqueezeGrouped(groups);
    JoinedDigits(groups);
    ParseWhole(Joined(groups));
  }

  lemma ExampleValue()
    ensures DecimalValue("1234", "56") == 1234.56
  {
    assert Pow10(2) == 100;
    assert DigitsValue("1234") == 1234 by {
      assert "1234"[..3] == "123" && "123"[..2] == "12" && "12"[..1] == "1" && "1"[..0] == "";
    }
    assert DigitsValue("56") == 56 by {
      assert "56"[..1] == "5" && "5"[..0] == "";
    }
  }

  /** The page's "1 234,56" (with a no-break space) is read as 1234.56. */
  lemma CleanNumberExample()
    ensures CleanNumber(Some("1" + [NoBreakSpace] + "234" + "," + "56"), ParseDecimal) == Some(1234.56)
  {
    var groups := ["1", "234"];
    assert AllDigits(groups) by {
      assert IsDigits("1") && IsDigits("234");
    }
    assert Grouped(groups) == "1" + [NoBreakSpace] + "234" by {
      assert groups[1..] == ["234"];
    }
    assert Joined(groups) == "1234" by {
      assert groups[1..] == ["234"] && groups[1..][1..] == [];
    }
    LocaleNumber(groups, "56");
    ExampleValue();
  }

  // ---------------------------------------------------------------------------
  // The row filter and mapping of main

  /** One kept table row: Land, Valuta, Köpkurs, Säljkurs, Datum. */
  datatype Quote = Quote(land: string, valuta: string, buying: Option<real>, selling: Option<real>, date: string)

  /** A row is kept when it has exactly five cells and its first names a target country. */
  function Accepts(tds: seq<string>): (b: bool)
    ensures b <==> |tds| == 5 && (tds[0] == "Euro" || tds[0] == "Storbritannien" || tds[0] == "USA")
  {
    |tds| == 5 && tds[0] in TargetCountries
  }

  /** How main reads a rate cell: clean_number applied to the cell text. */
  function RateReader(parseFloat: string -> Option<real>): string -> Option<real> {
    t => CleanNumber(Some(t), parseFloat)
  }

  /** The record appended for a kept row: cells 0, 1 and 4 as they are, cells 2 and 3 read as rates. */
  function ToQuote(tds: seq<string>, readRate: string -> Option<real>): (q: Quote)
    requires |tds| == 5
    ensures q.land == tds[0] && q.valuta == tds[1] && q.date == tds[4]
    ensures q.buying == readRate(tds[2]) && q.selling == readRate(tds[3])
  {
    Quote(tds[0], tds[1], readRate(tds[2]), readRate(tds[3]), tds[4])
  }

  /** The quotes the loop of main collects from the table, in table order. */
  function SelectQuotes(table: seq<seq<string>>, readRate: string -> Option<real>): (r: seq<Quote>)
    ensures |r| <= |table|
    ensures forall k :: 0 <= k < |r| ==> r[k].land in TargetCountries
  {
    if table == [] then []
    else (if Accepts(table[0]) then [ToQuote(table[0], readRate)] else [])
         + SelectQuotes(table[1..], readRate)
  }

  lemma {:induction false} SelectConcat(a: seq<seq<string>>, b: seq<seq<string>>, readRate: string -> Option<real>)
    ensures SelectQuotes(a + b, readRate) == SelectQuotes(a, readRate) + SelectQuotes(b, readRate)
  {
    if a != [] {
      assert (a + b)[0] == a[0];
      assert (a + b)[1..] == a[1..] + b;
      SelectConcat(a[1..], b, readRate);
      var head := if Accepts(a[0]) then [ToQuote(a[0], readRate)] else [];
      calc {
        SelectQuotes(a + b, readRate);
        head + SelectQuotes(a[1..] + b, readRate);
        head + (SelectQuotes(a[1..], readRate) + SelectQuotes(b, readRate));
        (head + SelectQuotes(a[1..], readRate)) + SelectQuotes(b, readRate);
      }
    } else {
      assert a + b == b;
    }
  }

  /**
    `idx` lists, increasing and without omission, the positions of the rows of `table`
    that are accepted, and quote `k` of `out` is made from row `idx[k]`: cells 0, 1 and
    4 unchanged as Land, Valuta and Datum, cells 2 and 3 through clean_number.
  */
  ghost predicate Selects(table: seq<seq<string>>, readRate: string -> Option<real>, out: seq<Quote>, idx: seq<nat>) {
    && |idx| == |out|
    && (forall k :: 0 <= k < |idx| ==> idx[k] < |table| && Accepts(table[idx[k]]))
    && (forall k, l :: 0 <= k < l < |idx| ==> idx[k] < idx[l])
    && Covers(table, idx)
    && (forall k :: 0 <= k < |idx| ==> MadeFrom(out[k], table[idx[k]], readRate))
  }

  /** Every accepted row's position is listed. */
  ghost predicate Covers(table: seq<seq<string>>, idx: seq<nat>) {
    forall i :: 0 <= i < |table| && Accepts(table[i]) ==> i in idx
  }

  ghost predicate MadeFrom(q: Quote, tds: seq<string>, readRate: string -> Option<real>) {
    && |tds| == 5
    && q.land == tds[0]
    && q.valuta == tds[1]
    && q.buying == readRate(tds[2])
    && q.selling == readRate(tds[3])
    && q.date == tds[4]
  }

  /** The positions of the accepted rows of `table`, counted from `from`, in increasing order. */
  ghost function Positions(table: seq<seq<string>>, from: nat): (idx: seq<nat>)
    ensures |idx| <= |table|
  {
    if table == [] then []
    else (if Accepts(table[0]) then [from] else []) + Positions(table[1..], from + 1)
  }

  lemma {:induction false} PositionsAccepted(table: seq<seq<string>>, from: nat)
    ensures forall k :: 0 <= k < |Positions(table, from)| ==>
      from <= Positions(table, from)[k] < from + |table| && Accepts(table[Positions(table, from)[k] - from])
  {
    if table != [] {
      var rest := Positions(table[1..], from + 1);
      PositionsAccepted(table[1..], from + 1);
      var idx := Positions(table, from);
      var head := if Accepts(table[0]) then [from] else [];
      assert idx == head + rest;
      forall k | 0 <= k < |idx|
        ensures from <= idx[k] < from + |table| && Accepts(table[idx[k] - from])
      {
        if k < |head| {
          assert idx[k] == from;
        } else {
          assert idx[k] == rest[k - |head|];
          assert from + 1 <= rest[k - |head|] < from + 1 + |table[1..]|;
          assert table[idx[k] - from] == table[1..][rest[k - |head|] - (from + 1)];
        }
      }
    }
  }

  lemma {:induction false} PositionsIncreasing(table: seq<seq<string>>, from: nat)
    ensures forall k, l :: 0 <= k < l < |Positions(table, from)| ==>
      Positions(table, from)[k] < Positions(table, from)[l]
  {
    if table != [] {
      var rest := Positions(table[1..], from + 1);
      PositionsIncreasing(table[1..], from + 1);
      PositionsAccepted(table[1..], from + 1);
      var idx := Positions(table, from);
      var head := if Accepts(table[0]) then [from] else [];
      assert idx == head + rest;
      forall k, l | 0 <= k < l < |idx|
        ensures idx[k] < idx[l]
      {
        assert idx[l] == rest[l - |head|];
        if k >= |head| {
          assert idx[k] == rest[k - |head|];
        } else {
          assert idx[k] == from;
        }
      }
    }
  }

  lemma {:induction false} PositionsCover(table: seq<seq<string>>, from: nat)
    ensures forall i :: 0 <= i < |table| && Accepts(table[i]) ==> from + i in Positions(table, from)
  {
    if table != [] {
      var rest := Positions(table[1..], from + 1);
      PositionsCover(table[1..], from + 1);
      var idx := Positions(table, from);
      var head := if Accepts(table[0]) then [from] else [];
      assert idx == head + rest;
      forall i | 0 <= i < |table| && Accepts(table[i])
        ensures from + i in idx
      {
        if i == 0 {
          assert idx[0] == from;
        } else {
          assert table[1..][i - 1] == table[i];
          assert from + 1 + (i - 1) in rest;
        }
      }
    }
  }

  lemma {:induction false} PositionsCount(table: seq<seq<string>>, from: nat, readRate: string -> Option<real>)
    ensures |Positions(table, from)| == |SelectQuotes(table, readRate)|
  {
    if table != [] {
      PositionsCount(table[1..], from + 1, readRate);
    }
  }

  lemma {:induction false} PositionsMake(table: seq<seq<string>>, from: nat, readRate: string -> Option<real>)
    ensures |Positions(table, from)| == |SelectQuotes(table, readRate)|
    ensures forall k :: 0 <= k < |Positions(table, from)| ==>
      from <= Positions(table, from)[k] < from + |table|
      && |table[Positions(table, from)[k] - from]| == 5
      && SelectQuotes(table, readRate)[k] == ToQuote(table[Positions(table, from)[k] - from], readRate)
  {
    PositionsCount(table, from, readRate);
    PositionsAccepted(table, from);
    if table != [] {
      var rest := Positions(table[1..], from + 1);
      var restOut := SelectQuotes(table[1..], readRate);
      PositionsMake(table[1..], from + 1, readRate);
      var idx, out := Positions(table, from), SelectQuotes(table, readRate);
      var head := if Accepts(table[0]) then [from] else [];
      var headOut := if Accepts(table[0]) then [ToQuote(table[0], readRate)] else [];
      assert idx == head + rest;
      assert out == headOut + restOut;
      forall k | 0 <= k < |idx|
        ensures out[k] == ToQuote(table[idx[k] - from], readRate)
      {
        if k < |head| {
          assert idx[k] == from && out[k] == ToQuote(table[0], readRate);
        } else {
          var j := k - |head|;
          assert idx[k] == rest[j] && out[k] == restOut[j];
          assert table[idx[k] - from] == table[1..][rest[j] - (from + 1)];
        }
      }
    }
  }

  /** The positions of the accepted rows of the whole table. */
  ghost function AcceptedPositions(table: seq<seq<string>>): seq<nat> {
    Positions(table, 0)
  }

  /** The quotes are exactly the accepted rows, in table order, each mapped cell by cell. */
  lemma SelectQuotesSpec(table: seq<seq<string>>, readRate: string -> Option<real>)
    ensures Selects(table, readRate, SelectQuotes(table, readRate), AcceptedPositions(table))
  {
    PositionsAccepted(table, 0);
    PositionsIncreasing(table, 0);
    PositionsCover(table, 0);
    PositionsMake(table, 0, readRate);
    var idx, out := AcceptedPositions(table), SelectQuotes(table, readRate);
    forall k | 0 <= k < |idx|
      ensures MadeFrom(out[k], table[idx[k]], readRate)
    {
      assert out[k] == ToQuote(table[idx[k]], readRate);
    }
  }

  /** A quote is in the output exactly when some accepted row makes it. */
  lemma {:induction false} SelectMembership(table: seq<seq<string>>, readRate: string -> Option<real>, q: Quote)
    ensures q in SelectQuotes(table, readRate)
        <==> exists i :: 0 <= i < |table| && Accepts(table[i]) && ToQuote(table[i], readRate) == q
  {
    if table != [] {
      SelectMembership(table[1..], readRate, q);
      if q in SelectQuotes(table[1..], readRate) {
        var i :| 0 <= i < |table[1..]| && Accepts(table[1..][i]) && ToQuote(table[1..][i], readRate) == q;
        assert table[i + 1] == table[1..][i];
      }
      if exists i :: 0 <= i < |table| && Accepts(table[i]) && ToQuote(table[i], readRate) == q {
        var i :| 0 <= i < |table| && Accepts(table[i]) && ToQuote(table[i], readRate) == q;
        if i > 0 {
          assert table[1..][i - 1] == table[i];
        }
      }
    }
  }

  /** The `for tr in ...` loop of main, with its two `continue` filters. */
  method ExtractQuotes(table: seq<seq<string>>, parseFloat: string -> Option<real>) returns (rowsOut: seq<Quote>)
    ensures rowsOut == SelectQuotes(table, RateReader(parseFloat))
  {
    rowsOut := [];
    for i := 0 to |table|
      invariant rowsOut == SelectQuotes(table[..i], RateReader(parseFloat))
    {
      assert table[..i + 1] == table[..i] + [table[i]];
      SelectConcat(table[..i], [table[i]], RateReader(parseFloat));
      var tds := table[i];
      if |tds| != 5 {
        continue;
      }
      var land := tds[0];
      if land !in TargetCountries {
        continue;
      }
      var valuta := tds[1];
      var kop := CleanNumber(Some(tds[2]), parseFloat);
      var salj := CleanNumber(Some(tds[3]), parseFloat);
      var datum := tds[4];
      rowsOut := rowsOut + [Quote(land, valuta, kop, salj, datum)];
    }
    assert table[..|table|] == table;
  }

  // ---------------------------------------------------------------------------
  // The dated CSV snapshot

  /** A written CSV cell: text, or a float that the csv module writes as its repr. */
  datatype Cell = Text(s: string) | Float(x: real)

  const Header: seq<Cell> :=
    [Text("Land"), Text("Valuta"), Text("K\U{00F6}pkurs"), Text("S\U{00E4}ljkurs"), Text("Datum"), Text("LoadDate")]

  /** The csv module writes `None` as an empty field and a float as the number. */
  function RateCell(v: Option<real>): (c: Cell)
    ensures c == Text("") <==> v.None?
    ensures v.Some? ==> c == Float(v.value)
  {
    match v
    case None => Text("")
    case Some(x) => Float(x)
  }

  /** The `writerow` of one quote: six cells, the load time last. */
  function CsvLine(q: Quote, loadDate: string): (line: seq<Cell>)
    ensures |line| == |Header|
    ensures line[5] == Text(loadDate)
  {
    [Text(q.land), Text(q.valuta), RateCell(q.buying), RateCell(q.selling), Text(q.date), Text(loadDate)]
  }

  /**
    The snapshot file: the six-column header, then one six-column line per quote, in
    order, each ending in the same load time.
  */
  function SnapshotFile(quotes: seq<Quote>, loadDate: string): (f: seq<seq<Cell>>)
    ensures |f| == |quotes| + 1
    ensures f[0] == Header
    ensures forall k :: 0 <= k < |f| ==> |f[k]| == 6
    ensures forall k :: 0 <= k < |quotes| ==>
      && f[k + 1][0] == Text(quotes[k].land)
      && f[k + 1][1] == Text(quotes[k].valuta)
      && f[k + 1][2] == RateCell(quotes[k].buying)
      && f[k + 1][3] == RateCell(quotes[k].selling)
      && f[k + 1][4] == Text(quotes[k].date)
      && f[k + 1][5] == Text(loadDate)
  {
    [Header] + seq(|quotes|, k requires 0 <= k < |quotes| => CsvLine(quotes[k], loadDate))
  }

  /** The header row, then the `for row in rows_out` writing loop. */
  method WriteSnapshot(rowsOut: seq<Quote>, loadDate: string) returns (lines: seq<seq<Cell>>)
    ensures lines == SnapshotFile(rowsOut, loadDate)
  {
    lines := [Header];
    for k := 0 to |rowsOut|
      invariant |lines| == k + 1 && lines[0] == Header
      invariant forall j :: 0 <= j < k ==> lines[j + 1] == CsvLine(rowsOut[j], loadDate)
    {
      var row := rowsOut[k];
      lines := lines + [[Text(row.land), Text(row.valuta), RateCell(row.buying), RateCell(row.selling),
                         Text(row.date), Text(loadDate)]];
    }
    ghost var f := SnapshotFile(rowsOut, loadDate);
    forall k | 0 <= k < |lines|
      ensures lines[k] == f[k]
    {
    }
  }

  /**
    The two readings of the Stockholm wall clock the script takes. The script takes both
    from one `now_se`; the model takes them as two strings and does not relate them.
  */
  datatype LocalTime = LocalTime(yyyymmdd: string, minute: string)  // "%Y%m%d" and "%Y-%m-%d %H:%M"

  /** `SEB_Avista_<YYYYMMDD>.csv`: the date between a fixed prefix and the extension. */
  function SnapshotName(now: LocalTime): (n: string)
    ensures |n| == |now.yyyymmdd| + 15
    ensures n[..11] == "SEB_Avista_" && n[11..|n| - 4] == now.yyyymmdd && n[|n| - 4..] == ".csv"
  {
    "SEB_Avista_" + now.yyyymmdd + ".csv"
  }

  /**
    main after the fetch: collect the quotes, overwrite the file named by today's date
    with the snapshot, and report how many quotes were written. Running it again on the
    same date replaces the same file.
  */
  method RunAvista(disk: Disk<seq<seq<Cell>>>, table: seq<seq<string>>, now: LocalTime,
                   parseFloat: string -> Option<real>) returns (count: nat)
    modifies disk
    ensures disk.files == old(disk.files)[SnapshotName(now) := SnapshotFile(SelectQuotes(table, RateReader(parseFloat)), now.minute)]
    ensures count == |SelectQuotes(table, RateReader(parseFloat))|
  {
    var rowsOut := ExtractQuotes(table, parseFloat);
    var lines := WriteSnapshot(rowsOut, now.minute);
    disk.Overwrite(SnapshotName(now), lines);
    count := |rowsOut|;
  }
}

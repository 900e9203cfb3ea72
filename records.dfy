/** Rows of the temperature CSV after parsing, and the lenient validator that
    both charts apply to them before aggregating. */
module Records {

  /** A parsed temperature cell: a number, or anything the parser could not
      read as one. */
  datatype Temp = Num(value: real) | NotNum

  /** One CSV row: the columns `Month`, `Day`, `max_temp` and `min_temp`. */
  datatype Row = Row(month: int, day: int, maxTemp: Temp, minTemp: Temp)

  /** The row filter: both temperatures numeric and the month in 1..12.
      `Day` is not checked. A row that passes has `Month - 1` in 0..11. */
  predicate IsValid(r: Row): (ok: bool)
    ensures ok ==> 0 <= r.month - 1 < 12
  {
    r.maxTemp.Num? && r.minTemp.Num? && 1 <= r.month <= 12
  }

  /** A row that passed the filter. Its `month - 1` indexes a 12-slot array. */
  type ValidRow = r: Row | IsValid(r) witness Row(1, 1, Num(0.0), Num(0.0))

  /** `pos` lists, in increasing order, exactly the positions of `raw` whose
      rows satisfy `keep`, and `out` is the sequence of the rows at those
      positions: `out` is the order-preserving filter of `raw` by `keep`. */
  ghost predicate IsSelection(raw: seq<Row>, keep: Row -> bool, pos: seq<int>, out: seq<Row>) {
    && |pos| == |out|
    && (forall j :: 0 <= j < |pos| ==> 0 <= pos[j] < |raw| && out[j] == raw[pos[j]])
    && (forall j, j' :: 0 <= j < j' < |pos| ==> pos[j] < pos[j'])
    && (forall k :: 0 <= k < |raw| ==> (keep(raw[k]) <==> k in pos))
  }

  /** Appending one row to the input extends a selection by that row exactly
      when the row is kept. */
  lemma SelectionExtend(raw: seq<Row>, keep: Row -> bool, pos: seq<int>, out: seq<Row>, x: Row)
    requires IsSelection(raw, keep, pos, out)
    ensures keep(x) ==> IsSelection(raw + [x], keep, pos + [|raw|], out + [x])
    ensures !keep(x) ==> IsSelection(raw + [x], keep, pos, out)
  {
    var raw' := raw + [x];
    assert forall k :: 0 <= k < |raw| ==> raw'[k] == raw[k];
    if keep(x) {
      var pos', out' := pos + [|raw|], out + [x];
      forall k | 0 <= k < |raw'|
        ensures keep(raw'[k]) <==> k in pos'
      {
        if k < |raw| {
          assert k in pos' <==> k in pos;
        }
      }
    } else {
      assert |raw| !in pos;
    }
  }

  /** The validator: the rows that pass `IsValid`, in input order. */
  function Validate(raw: seq<Row>): (rows: seq<ValidRow>)
    ensures |rows| <= |raw|
  {
    if raw == [] then []
    else
      var rest := Validate(raw[..|raw| - 1]);
      var last := raw[|raw| - 1];
      if IsValid(last) then rest + [last] else rest
  }

  /** The validated sequence is the order-preserving selection of exactly the
      valid input rows: nothing invalid is kept, nothing valid is dropped,
      duplicates are kept and the order is unchanged. */
  lemma {:induction false} ValidateSelectsValidRows(raw: seq<Row>)
    ensures exists pos :: IsSelection(raw, IsValid, pos, Validate(raw))
  {
    if raw == [] {
      assert Validate(raw) == [];
      assert IsSelection(raw, IsValid, [], Validate(raw));
    } else {
      var init, last := raw[..|raw| - 1], raw[|raw| - 1];
      ValidateSelectsValidRows(init);
      var pos :| IsSelection(init, IsValid, pos, Validate(init));
      SelectionExtend(init, IsValid, pos, Validate(init), last);
      assert init + [last] == raw;
      if IsValid(last) {
        assert IsSelection(raw, IsValid, pos + [|init|], Validate(raw));
      } else {
        assert IsSelection(raw, IsValid, pos, Validate(raw));
      }
    }
  }

  /** A row appears in the validated sequence exactly when it appears in the
      input and is valid. */
  lemma {:induction false} ValidateMembership(raw: seq<Row>)
    ensures forall r: Row :: r in Validate(raw) <==> r in raw && IsValid(r)
  {
    if raw != [] {
      var init := raw[..|raw| - 1];
      ValidateMembership(init);
      assert raw == init + [raw[|raw| - 1]];
    }
  }

  /** Validation distributes over concatenation: validating rows piece by
      piece gives the same result as validating them all at once. */
  lemma {:induction false} ValidateAppend(a: seq<Row>, b: seq<Row>)
    ensures Validate(a + b) == Validate(a) + Validate(b)
    decreases |b|
  {
    if b == [] {
      assert a + b == a;
    } else {
      var init, last := b[..|b| - 1], b[|b| - 1];
      var ab := a + b;
      assert ab[..|ab| - 1] == a + init && ab[|ab| - 1] == last;
      assert b[..|b| - 1] == init;
      ValidateAppend(a, init);
      if IsValid(last) {
        assert Validate(ab) == Validate(a + init) + [last];
        assert Validate(b) == Validate(init) + [last];
      } else {
        assert Validate(ab) == Validate(a + init);
        assert Validate(b) == Validate(init);
      }
    }
  }
}

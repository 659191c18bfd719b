/** Printing then parsing, on whole records: a stored record comes back exactly when it is
    restorable. */
module ZoneRestore {
  import opened Dns
  import opened Text
  import opened ZoneToken
  import opened ZoneUtil
  import opened ZoneRdata
  import opened ZoneStatement
  import opened ZoneDump
  import opened ZoneExplicit
  import opened ZoneRoundTrip

  /** A field that takes the rest comes back as it was exactly when it survives. */
  lemma RestBack(name: string, ft: FieldType, data: Data, c: Checks)
    requires TakesRest(ft) && TypedField(name, ft, data)
    ensures RestData(name, ft, FieldTokens(name, ft, data), c) == Some(BackField(name, ft, data)) <==>
            Survives(name, ft, data, c)
  {
    match ft
    case PolarRest => PolarBack(data, c);
    case TxtRest => TxtBack(data[name].ss);
    case BitmapRest => TextsOfWords(data[name].ws);
    case SvcRest =>
      TextsOfWords(ParamWords(data[name].params));
      ParamsBack(data[name].params);
      SameAt(name, data[name], ParamsOf(ParamWords(data[name].params)));
    case IpsecRest =>
      TextsOfWords(KeyWords(data[name].key));
      KeyBack(data[name].key, c);
      SameKeyAt(name, data[name], KeyOf(KeyWords(data[name].key), c));
    case Base64Rest => OneWordBack(data[name].s);
    case HexRest => OneWordBack(data[name].s);
  }

  lemma OneWordBack(s: string)
    ensures s == "" ==> Concat(Texts([])) == s
    ensures Concat(Texts([TokenOf(s)])) == s
  {
    assert Texts([TokenOf(s)]) == [s];
    ConcatOne(s);
  }

  lemma TxtBack(ss: seq<string>)
    ensures Texts(StringsOf(ss)) == ss
    ensures AllTxt(StringsOf(ss)) <==> forall i :: 0 <= i < |ss| ==> |ss[i]| <= 255
  {
    if AllTxt(StringsOf(ss)) {
      forall i | 0 <= i < |ss|
        ensures |ss[i]| <= 255
      {
        assert StringsOf(ss)[i] == Str(ss[i]);
      }
    }
  }

  lemma SameAt(name: string, v: Value, r: Option<map<string, Param>>)
    requires v.Params?
    ensures (r.Some? && map[name := Params(r.value)] == map[name := v]) <==> r == Some(v.params)
  {
    if r.Some? {
      assert map[name := Params(r.value)][name] == Params(r.value);
      assert map[name := v][name] == v;
    }
  }

  lemma SameKeyAt(name: string, v: Value, r: Option<IpsecKey>)
    requires v.Key?
    ensures (r.Some? && map[name := Key(r.value)] == map[name := v]) <==> r == Some(v.key)
  {
    if r.Some? {
      assert map[name := Key(r.value)][name] == Key(r.value);
      assert map[name := v][name] == v;
    }
  }

  // ---- All fields ----

  /** A field that takes the rest is the last, and LOC data stand alone. */
  predicate WellFormed(fields: Fields) {
    && (forall i :: 0 <= i < |fields| - 1 ==> !TakesRest(fields[i].1))
    && (forall i :: 0 <= i < |fields| && fields[i].1.PolarRest? ==> |fields| == 1)
  }

  lemma ShortTypesAreWellFormed(t: string)
    requires |t| <= 3
    ensures WellFormed(FieldsOf(t))
  {
  }

  lemma FourLetterTypesAreWellFormed(t: string)
    requires |t| == 4
    ensures WellFormed(FieldsOf(t))
  {
  }

  lemma LongTypesAreWellFormed(t: string)
    requires |t| >= 5
    ensures WellFormed(FieldsOf(t))
  {
  }

  lemma TableIsWellFormed(t: string)
    ensures WellFormed(FieldsOf(t))
  {
    if |t| <= 3 {
      ShortTypesAreWellFormed(t);
    } else if |t| == 4 {
      FourLetterTypesAreWellFormed(t);
    } else {
      LongTypesAreWellFormed(t);
    }
  }

  function Names(fields: Fields): set<string> {
    set i | 0 <= i < |fields| :: fields[i].0
  }

  lemma NamesStep(fields: Fields)
    requires fields != []
    ensures Names(fields) == {fields[0].0} + Names(fields[1..])
  {
    assert forall i :: 1 <= i < |fields| ==> fields[i] == fields[1..][i-1];
    forall k | k in Names(fields[1..])
      ensures k in Names(fields)
    {
      var i :| 0 <= i < |fields[1..]| && fields[1..][i].0 == k;
      assert fields[i+1].0 == k;
    }
  }

  predicate NoPolar(fields: Fields) {
    forall i :: 0 <= i < |fields| ==> !fields[i].1.PolarRest?
  }

  lemma {:induction false} DataKeys(fields: Fields, origin: Option<string>, ts: seq<Token>, c: Checks)
    requires AllHaveValues(ts) && NoPolar(fields) && WellFormed(fields)
    ensures DataOf(fields, origin, ts, c).Some? ==> DataOf(fields, origin, ts, c).value.Keys == Names(fields)
    decreases |fields|
  {
    if fields != [] {
      NamesStep(fields);
      if TakesRest(fields[0].1) {
        assert fields[1..] == [];
      } else if ts != [] {
        DataKeys(fields[1..], origin, ts[1..], c);
      }
    }
  }

  lemma {:induction false} BackKeys(fields: Fields, data: Data)
    requires TypedFields(fields, data) && NoPolar(fields)
    ensures BackFields(fields, data).Keys == Names(fields)
    decreases |fields|
  {
    if fields != [] {
      NamesStep(fields);
      BackKeys(fields[1..], data);
    }
  }

  lemma CancelFirst(m: Data, a: Data, b: Data)
    requires a.Keys == b.Keys
    ensures m + a == m + b <==> a == b
  {
    if m + a == m + b {
      forall k | k in a
        ensures a[k] == b[k]
      {
        assert (m + a)[k] == (m + b)[k];
      }
    }
  }

  lemma SurvivorsStep(fields: Fields, data: Data, c: Checks)
    requires fields != [] && TypedFields(fields, data)
    ensures TypedFields(fields[1..], data)
    ensures AllSurvive(fields, data, c) <==>
            Survives(fields[0].0, fields[0].1, data, c) && AllSurvive(fields[1..], data, c)
  {
    if Survives(fields[0].0, fields[0].1, data, c) && AllSurvive(fields[1..], data, c) {
      forall i | 0 <= i < |fields|
        ensures Survives(fields[i].0, fields[i].1, data, c)
      {
        if i > 0 {
          assert fields[i] == fields[1..][i-1];
        }
      }
    }
    if AllSurvive(fields, data, c) {
      forall i | 0 <= i < |fields[1..]|
        ensures Survives(fields[1..][i].0, fields[1..][i].1, data, c)
      {
        assert fields[1..][i] == fields[i+1];
      }
    }
  }

  lemma LastFieldBack(fields: Fields, data: Data, origin: Option<string>, c: Checks)
    requires |fields| == 1 && TypedFields(fields, data) && TakesRest(fields[0].1)
    ensures DataOf(fields, origin, FieldsTokens(fields, data), c) == Some(BackFields(fields, data)) <==>
            Survives(fields[0].0, fields[0].1, data, c)
  {
    var (name, ft) := fields[0];
    assert fields[1..] == [];
    assert FieldTokens(name, ft, data) + [] == FieldTokens(name, ft, data);
    assert BackField(name, ft, data) + map[] == BackField(name, ft, data);
    RestBack(name, ft, data, c);
  }

  lemma JoinedBack(m: Data, r: Option<Data>, rest: Data)
    requires r.Some? ==> r.value.Keys == rest.Keys
    ensures Joined(m, r) == Some(m + rest) <==> r == Some(rest)
  {
    if r.Some? {
      CancelFirst(m, r.value, rest);
    }
  }

  /** Printed fields are parsed back as they were exactly when all of them survive. */
  lemma {:induction false} FieldsBack(fields: Fields, data: Data, origin: Option<string>, c: Checks)
    requires TypedFields(fields, data) && WellFormed(fields)
    ensures DataOf(fields, origin, FieldsTokens(fields, data), c) == Some(BackFields(fields, data)) <==>
            AllSurvive(fields, data, c)
    decreases |fields|
  {
    if fields != [] {
      SurvivorsStep(fields, data, c);
      if TakesRest(fields[0].1) {
        LastFieldBack(fields, data, origin, c);
      } else {
        var rest := fields[1..];
        FirstBack(fields, data, origin, c);
        FieldsBack(rest, data, origin, c);
        DataKeys(rest, origin, FieldsTokens(rest, data), c);
        BackKeys(rest, data);
        JoinedBack(BackField(fields[0].0, fields[0].1, data), DataOf(rest, origin, FieldsTokens(rest, data), c),
                   BackFields(rest, data));
      }
    }
  }

  lemma FirstBack(fields: Fields, data: Data, origin: Option<string>, c: Checks)
    requires fields != [] && TypedFields(fields, data) && !TakesRest(fields[0].1)
    ensures DataOf(fields, origin, FieldsTokens(fields, data), c) ==
            if Survives(fields[0].0, fields[0].1, data, c) then
              Joined(BackField(fields[0].0, fields[0].1, data), DataOf(fields[1..], origin, FieldsTokens(fields[1..], data), c))
            else None
  {
    var (name, ft) := fields[0];
    TokenBack(name, ft, data, origin, c);
    var ts := FieldsTokens(fields, data);
    assert ts[0] == FieldTokens(name, ft, data)[0] && ts[1..] == FieldsTokens(fields[1..], data);
  }

  // ---- Whole records ----

  lemma DumpTokensParts(rr: Stored)
    requires Typed(rr)
    ensures var ts := DumpTokens(rr);
            && RecordTokens(ts) && |ts| >= 4 && ts[3] == Word(rr.rtype)
            && ts[..3] == [Word(rr.name + "."), Word(Decimal(rr.ttl)), Word("IN")]
            && ts[4..] == FieldsTokens(FieldsOf(rr.rtype), rr.data)
  {
  }

  lemma FirstType(ts: seq<Token>, i: nat)
    requires i < |ts| && IsType(ts[i]) && forall k :: 0 <= k < i ==> !IsType(ts[k])
    ensures TypeIndex(ts) == i
  {
    var j := TypeIndex(ts);
  }

  lemma DumpTypeIndex(rr: Stored)
    requires Typed(rr)
    ensures TypeIndex(DumpTokens(rr)) == 3
  {
    DumpTokensParts(rr);
    var ts := DumpTokens(rr);
    NoSuchType(rr.name + ".");
    NoSuchType(Decimal(rr.ttl));
    NoSuchType("IN");
    forall k | 0 <= k < 3
      ensures !IsType(ts[k])
    {
      assert ts[k] == ts[..3][k];
    }
    FirstType(ts, 3);
  }

  lemma DumpLeft(name: string, ttl: nat, ctx: Context)
    ensures LeftOf([Word(name + "."), Word(Decimal(ttl)), Word("IN")], ctx) ==
            if ttl <= MAX_TTL then Some(Left(Some(name + "."), Some(ttl))) else None
  {
    TtlOfPrinted(ttl);
    var n := name + ".";
    assert n[|n|-1] == '.' && NameOf(ctx.origin, Some(n)) == Some(n);
    assert Decimal(ttl) != "IN" by {
      assert IsDigit(Decimal(ttl)[0]);
    }
  }

  /** The tokens of a printed record assemble to the record, with dots behind its names,
      exactly when it is restorable, in whatever context. */
  lemma RecordBack(rr: Stored, ctx: Context, c: Checks)
    requires Typed(rr)
    ensures RecordTokens(DumpTokens(rr))
    ensures Assemble(DumpTokens(rr), ctx, c) == Some(Back(rr)) <==> Restorable(rr, c)
  {
    DumpTokensParts(rr);
    DumpTypeIndex(rr);
    TableIsWellFormed(rr.rtype);
    FieldsBack(FieldsOf(rr.rtype), rr.data, ctx.origin, c);
    DumpLeft(rr.name, rr.ttl, ctx);
    var ts := DumpTokens(rr);
    assert Assemble(ts, ctx, c) == if |ts| == 4 then None else RecordAt(ts, 3, ctx, c);
  }
}

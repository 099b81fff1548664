/** The -engines flag of the scheduler (scheduler/cmd/scheduler/main.go:29-47). */
module EngineSpec {
  import opened Common
  import opened Text

  /** One name=address pair. */
  datatype Engine = Engine(name: string, address: string)

  /** What one comma-separated piece says: nothing, a pair, or an error. */
  datatype Piece = Blank | Pair(engine: Engine) | Bad

  function ReadPiece(raw: string): Piece {
    var piece := TrimSpace(raw);
    if piece == "" then Blank
    else if '=' !in piece then Bad
    else Pair(Engine(Before(piece, '='), After(piece, '=')))
  }

  function ReadAll(pieces: seq<string>): (read: seq<Piece>)
    ensures |read| == |pieces| && forall i | 0 <= i < |pieces| :: read[i] == ReadPiece(pieces[i])
  {
    seq(|pieces|, i requires 0 <= i < |pieces| => ReadPiece(pieces[i]))
  }

  /** The pairs of some pieces, a later address for a name replacing an earlier one. */
  function Collect(read: seq<Piece>): Option<map<string, string>> {
    if read == [] then Some(map[])
    else
      match Collect(read[..|read| - 1])
      case None => None
      case Some(m) =>
        match read[|read| - 1]
        case Blank => Some(m)
        case Bad => None
        case Pair(e) => Some(m[e.name := e.address])
  }

  /** The answer for the pieces of a flag. */
  function Answer(read: seq<Piece>): Result<map<string, string>> {
    match Collect(read)
    case None => Err("invalid engine spec, expected name=address")
    case Some(m) => if m == map[] then Err("no engines specified") else Ok(m)
  }

  function Parsed(spec: string): Result<map<string, string>> {
    Answer(ReadAll(Split(spec, ',')))
  }

  /** The first bad piece decides. */
  lemma {:induction false} BadStays(read: seq<Piece>, n: nat)
    requires n <= |read| && Collect(read[..n]).None?
    ensures Collect(read).None?
    decreases |read|
  {
    if n < |read| {
      assert read[..|read| - 1][..n] == read[..n];
      BadStays(read[..|read| - 1], n);
    } else {
      assert read[..n] == read;
    }
  }

  method ParseEngines(spec: string) returns (r: Result<map<string, string>>)
    ensures r == Parsed(spec)
  {
    var result: map<string, string> := map[];
    var pieces := Split(spec, ',');
    ghost var read := ReadAll(pieces);
    for i := 0 to |pieces|
      invariant Collect(read[..i]) == Some(result)
    {
      CollectNext(read, i);
      var pair := TrimSpace(pieces[i]);
      if pair == "" {
        continue;
      }
      if '=' !in pair {
        BadStays(read, i + 1);
        return Err("invalid engine spec, expected name=address");
      }
      result := result[Before(pair, '=') := After(pair, '=')];
    }
    assert read[..|pieces|] == read;
    if result == map[] {
      return Err("no engines specified");
    }
    return Ok(result);
  }

  /** One more piece: an error stays, a blank changes nothing, and a pair is put in. */
  lemma CollectStep(front: seq<Piece>, last: Piece)
    ensures Collect(front + [last])
            == if Collect(front).None? || last.Bad? then None else Some(PutPair(Collect(front).value, last))
  {
    assert (front + [last])[..|front|] == front;
  }

  lemma CollectNext(read: seq<Piece>, i: nat)
    requires i < |read| && Collect(read[..i]).Some?
    ensures Collect(read[..i + 1])
            == if read[i].Bad? then None else Some(PutPair(Collect(read[..i]).value, read[i]))
  {
    CollectStep(read[..i], read[i]);
    assert read[..i + 1] == read[..i] + [read[i]];
  }

  function PutPair(m: map<string, string>, piece: Piece): map<string, string>
    requires !piece.Bad?
  {
    if piece.Blank? then m else m[piece.engine.name := piece.engine.address]
  }

  // ------------------------------------------------------------ the round trip

  function Show(e: Engine): string {
    e.name + ['='] + e.address
  }

  function ShowAll(engines: seq<Engine>): (pieces: seq<string>)
    ensures |pieces| == |engines| && forall i | 0 <= i < |engines| :: pieces[i] == Show(engines[i])
  {
    seq(|engines|, i requires 0 <= i < |engines| => Show(engines[i]))
  }

  function Print(engines: seq<Engine>): string {
    Join(ShowAll(engines), ',')
  }

  /** A pair that the flag can express. */
  predicate Expressible(e: Engine) {
    && ',' !in e.name && '=' !in e.name && ',' !in e.address
    && (e.name != "" ==> !IsSpace(e.name[0]))
    && (e.address != "" ==> !IsSpace(e.address[|e.address| - 1]))
  }

  /** Distinct names, as in a map. */
  ghost predicate DistinctNames(engines: seq<Engine>) {
    forall i, j | 0 <= i < j < |engines| :: engines[i].name != engines[j].name
  }

  /** The map that lists exactly these engines. */
  ghost predicate Lists(m: map<string, string>, engines: seq<Engine>) {
    && (forall i | 0 <= i < |engines| :: engines[i].name in m && m[engines[i].name] == engines[i].address)
    && (forall name | name in m :: exists i :: 0 <= i < |engines| && engines[i].name == name)
  }

  /** Nothing is trimmed off a pair without space at its edges. */
  lemma NothingTrimmed(e: Engine)
    requires Expressible(e)
    ensures TrimSpace(Show(e)) == Show(e)
  {
    var s := Show(e);
    assert s[0] == if e.name == "" then '=' else e.name[0];
    assert s[|s| - 1] == if e.address == "" then '=' else e.address[|e.address| - 1];
  }

  lemma NoCommaShown(e: Engine)
    requires ',' !in e.name && ',' !in e.address
    ensures ',' !in Show(e)
  {
  }

  lemma ReadShown(e: Engine)
    requires Expressible(e)
    ensures ReadPiece(Show(e)) == Pair(e) && ',' !in Show(e)
  {
    NothingTrimmed(e);
    NoCommaShown(e);
    CutAt(e.name, '=', e.address);
  }

  lemma ListsOneMore(m: map<string, string>, engines: seq<Engine>, e: Engine)
    requires Lists(m, engines) && forall i | 0 <= i < |engines| :: engines[i].name != e.name
    ensures Lists(m[e.name := e.address], engines + [e])
  {
    var more, m' := engines + [e], m[e.name := e.address];
    assert more[|engines|] == e;
    forall name | name in m' ensures exists i :: 0 <= i < |more| && more[i].name == name {
      if name != e.name {
        var i :| 0 <= i < |engines| && engines[i].name == name;
        assert more[i].name == name;
      }
    }
  }

  function Pairs(engines: seq<Engine>): (read: seq<Piece>)
    ensures |read| == |engines| && forall i | 0 <= i < |engines| :: read[i] == Pair(engines[i])
  {
    seq(|engines|, i requires 0 <= i < |engines| => Pair(engines[i]))
  }

  lemma {:induction false} CollectPairs(engines: seq<Engine>)
    requires DistinctNames(engines)
    ensures Collect(Pairs(engines)).Some? && Lists(Collect(Pairs(engines)).value, engines)
  {
    if engines != [] {
      var front, last := engines[..|engines| - 1], engines[|engines| - 1];
      CollectPairs(front);
      assert engines == front + [last];
      OneMoreListed(front, last);
    }
  }

  lemma OneMoreListed(front: seq<Engine>, e: Engine)
    requires Collect(Pairs(front)).Some? && Lists(Collect(Pairs(front)).value, front)
    requires forall i | 0 <= i < |front| :: front[i].name != e.name
    ensures Collect(Pairs(front + [e])).Some? && Lists(Collect(Pairs(front + [e])).value, front + [e])
  {
    ListsOneMore(Collect(Pairs(front)).value, front, e);
    CollectStep(Pairs(front), Pair(e));
    assert Pairs(front + [e]) == Pairs(front) + [Pair(e)];
  }

  lemma ReadAllShown(engines: seq<Engine>)
    requires forall i | 0 <= i < |engines| :: Expressible(engines[i])
    ensures ReadAll(ShowAll(engines)) == Pairs(engines)
    ensures forall i | 0 <= i < |engines| :: ',' !in ShowAll(engines)[i]
  {
    forall i | 0 <= i < |engines|
      ensures ReadAll(ShowAll(engines))[i] == Pair(engines[i]) && ',' !in ShowAll(engines)[i]
    {
      ReadShown(engines[i]);
    }
  }

  /** Every pair that parsing yields is one the flag can express. */
  lemma ReadIsExpressible(raw: string)
    requires ',' !in raw && ReadPiece(raw).Pair?
    ensures Expressible(ReadPiece(raw).engine)
  {
    var piece := TrimSpace(raw);
    var e := ReadPiece(raw).engine;
    CutParts(piece, '=');
    assert piece == Show(e);
    assert ',' !in piece;
    assert e.name != "" ==> e.name[0] == piece[0];
    assert e.address != "" ==> e.address[|e.address| - 1] == piece[|piece| - 1];
    assert e.name == piece[..|e.name|];
    assert e.address == piece[|e.name| + 1..];
  }

  lemma {:induction false} CollectedAreExpressible(read: seq<Piece>, name: string)
    requires PairsExpressible(read)
    requires Collect(read).Some? && name in Collect(read).value
    ensures Expressible(Engine(name, Collect(read).value[name]))
  {
    if read != [] {
      var n := |read| - 1;
      if name in Collect(read[..n]).value {
        CollectedAreExpressible(read[..n], name);
      }
    }
  }

  lemma ReadAreExpressible(spec: string)
    ensures PairsExpressible(ReadAll(Split(spec, ',')))
  {
    var pieces := Split(spec, ',');
    var read := ReadAll(pieces);
    SplitParts(spec, ',');
    forall i | 0 <= i < |read| && read[i].Pair? ensures Expressible(read[i].engine) {
      ReadIsExpressible(pieces[i]);
    }
  }

  /** Printing engines with distinct names and parsing the flag lists exactly those engines
      if and only if there is at least one and each is expressible: no comma or '=' in the
      name, no comma in the address, no space before the name or after the address. */
  lemma PrintParseIff(engines: seq<Engine>)
    requires DistinctNames(engines)
    ensures (Parsed(Print(engines)).Ok? && Lists(Parsed(Print(engines)).value, engines))
            <==> engines != [] && forall i | 0 <= i < |engines| :: Expressible(engines[i])
  {
    if engines != [] && forall i | 0 <= i < |engines| :: Expressible(engines[i]) {
      PrintedIsParsed(engines);
    }
    if Parsed(Print(engines)).Ok? && Lists(Parsed(Print(engines)).value, engines) {
      ReadAreExpressible(Print(engines));
      AnsweredAreExpressible(ReadAll(Split(Print(engines), ',')), engines);
    }
  }

  lemma PrintedIsParsed(engines: seq<Engine>)
    requires DistinctNames(engines) && engines != [] && forall i | 0 <= i < |engines| :: Expressible(engines[i])
    ensures Parsed(Print(engines)).Ok? && Lists(Parsed(Print(engines)).value, engines)
  {
    ReadPrinted(engines);
    CollectPairs(engines);
    SomethingListed(Collect(Pairs(engines)).value, engines);
  }

  /** All pairs read are expressible. */
  ghost predicate PairsExpressible(read: seq<Piece>) {
    forall i | 0 <= i < |read| && read[i].Pair? :: Expressible(read[i].engine)
  }

  lemma AnsweredAreExpressible(read: seq<Piece>, engines: seq<Engine>)
    requires PairsExpressible(read) && Answer(read).Ok? && Lists(Answer(read).value, engines)
    ensures engines != [] && forall i | 0 <= i < |engines| :: Expressible(engines[i])
  {
    SomethingListed(Answer(read).value, engines);
    forall i | 0 <= i < |engines| ensures Expressible(engines[i]) {
      CollectedAreExpressible(read, engines[i].name);
    }
  }

  lemma ReadPrinted(engines: seq<Engine>)
    requires engines != [] && forall i | 0 <= i < |engines| :: Expressible(engines[i])
    ensures ReadAll(Split(Print(engines), ',')) == Pairs(engines)
  {
    ReadAllShown(engines);
    SplitJoin(ShowAll(engines), ',');
  }

  lemma SomethingListed(m: map<string, string>, engines: seq<Engine>)
    requires Lists(m, engines)
    ensures m == map[] <==> engines == []
  {
    if engines != [] {
      assert engines[0].name in m;
    }
    if m != map[] {
      var name :| name in m;
    }
  }

  // -------------------------------------------------- what a flag means, piece by piece

  /** A piece is skipped if it is all space, and is an error if it has no '='. */
  lemma ReadPieceKind(raw: string)
    ensures ReadPiece(raw).Blank? <==> AllSpace(raw)
    ensures ReadPiece(raw).Bad? <==> !AllSpace(raw) && '=' !in raw
  {
    TrimsToNothingIff(raw);
    assert !IsSpace('=');
    TrimKeeps(raw, '=');
  }

  /** A pair is space, a name without '=', the first '=', an address, and space. */
  lemma ReadPairIs(raw: string) returns (left: string, right: string)
    requires ReadPiece(raw).Pair?
    ensures AllSpace(left) && AllSpace(right) && raw == left + Show(ReadPiece(raw).engine) + right
    ensures '=' !in ReadPiece(raw).engine.name
    ensures var shown := Show(ReadPiece(raw).engine); !IsSpace(shown[0]) && !IsSpace(shown[|shown| - 1])
  {
    left, right := TrimSpaceIs(raw);
    var piece := TrimSpace(raw);
    CutParts(piece, '=');
    assert piece == Show(ReadPiece(raw).engine);
  }

  predicate Names(piece: Piece, name: string) {
    piece.Pair? && piece.engine.name == name
  }

  /** Piece i is the last pair with this name. */
  ghost predicate LastNamed(read: seq<Piece>, e: Engine, i: nat) {
    && i < |read| && read[i] == Pair(e)
    && forall j | i < j < |read| :: !Names(read[j], e.name)
  }

  /** `m` has exactly the names of the pairs, each with the address of its last pair. */
  ghost predicate HoldsLast(read: seq<Piece>, m: map<string, string>) {
    && (forall i | 0 <= i < |read| && read[i].Pair? :: read[i].engine.name in m)
    && (forall name | name in m :: exists i: nat :: LastNamed(read, Engine(name, m[name]), i))
  }

  lemma OneMorePair(read: seq<Piece>, piece: Piece, m: map<string, string>)
    requires HoldsLast(read, m) && !piece.Bad?
    ensures HoldsLast(read + [piece], PutPair(m, piece))
  {
    var more, m' := read + [piece], PutPair(m, piece);
    assert more[|read|] == piece;
    forall name | name in m' ensures exists i: nat :: LastNamed(more, Engine(name, m'[name]), i) {
      if Names(piece, name) {
        assert LastNamed(more, Engine(name, m'[name]), |read|);
      } else {
        var i: nat :| LastNamed(read, Engine(name, m[name]), i);
        assert LastNamed(more, Engine(name, m[name]), i);
      }
    }
  }

  ghost predicate HasBad(read: seq<Piece>) {
    exists i :: 0 <= i < |read| && read[i].Bad?
  }

  lemma BadOrBefore(read: seq<Piece>, piece: Piece)
    ensures HasBad(read + [piece]) <==> HasBad(read) || piece.Bad?
  {
    var more := read + [piece];
    assert more[|read|] == piece;
    assert forall i | 0 <= i < |read| :: more[i] == read[i];
  }

  /** What collecting says of the pieces read: it fails exactly if one is an error, and
      otherwise keeps, of each name, the last address. */
  ghost predicate Collects(read: seq<Piece>, collected: Option<map<string, string>>) {
    && (collected.None? <==> HasBad(read))
    && (collected.Some? ==> HoldsLast(read, collected.value))
  }

  lemma CollectsOneMore(read: seq<Piece>, piece: Piece, collected: Option<map<string, string>>)
    requires Collects(read, collected)
    ensures Collects(read + [piece],
                     if collected.None? || piece.Bad? then None else Some(PutPair(collected.value, piece)))
  {
    BadOrBefore(read, piece);
    if collected.Some? && !piece.Bad? {
      OneMorePair(read, piece, collected.value);
    }
  }

  lemma {:induction false} CollectIs(read: seq<Piece>)
    ensures Collects(read, Collect(read))
  {
    if read != [] {
      var front, last := read[..|read| - 1], read[|read| - 1];
      CollectIs(front);
      CollectStep(front, last);
      CollectsOneMore(front, last, Collect(front));
      assert read == front + [last];
    }
  }

  /** So the flag is accepted exactly if no piece is an error and one is a pair, and then
      gives every name its last address. */
  lemma ParsedIs(spec: string)
    ensures var read := ReadAll(Split(spec, ','));
            && (Parsed(spec).Ok? <==> !HasBad(read) && exists i :: 0 <= i < |read| && read[i].Pair?)
            && (Parsed(spec).Ok? ==> HoldsLast(read, Parsed(spec).value))
  {
    AnswerIs(ReadAll(Split(spec, ',')));
  }

  lemma AnswerIs(read: seq<Piece>)
    ensures Answer(read).Ok? <==> !HasBad(read) && exists i :: 0 <= i < |read| && read[i].Pair?
    ensures Answer(read).Ok? ==> HoldsLast(read, Answer(read).value)
  {
    CollectIs(read);
    if Collect(read).Some? {
      SomePairIff(read, Collect(read).value);
    }
  }

  lemma SomePairIff(read: seq<Piece>, m: map<string, string>)
    requires HoldsLast(read, m)
    ensures m != map[] <==> exists i :: 0 <= i < |read| && read[i].Pair?
  {
    if m != map[] {
      var name :| name in m;
      var i: nat :| LastNamed(read, Engine(name, m[name]), i);
      assert read[i].Pair?;
    }
  }

  lemma BlankIsSkipped(read: seq<Piece>)
    ensures Answer(read + [Blank]) == Answer(read)
  {
    CollectStep(read, Blank);
  }

  lemma ReadOneMore(pieces: seq<string>, piece: string)
    ensures ReadAll(pieces + [piece]) == ReadAll(pieces) + [ReadPiece(piece)]
  {
  }

  /** A comma at the end, with or without space after it, changes nothing. */
  lemma TrailingCommaIsSkipped(spec: string, space: string)
    requires AllSpace(space) && ',' !in space
    ensures Parsed(spec + [','] + space) == Parsed(spec)
  {
    SplitConcat(spec, ',', space);
    ReadPieceKind(space);
    ReadOneMore(Split(spec, ','), space);
    BlankIsSkipped(ReadAll(Split(spec, ',')));
  }
}

// The language the query parser accepts, stated without its states: a query is
// valid exactly if it is the text of a form, and the result is the form's meaning.
module QueryGrammar {
  import opened Bytes
  import opened Parsing
  import opened QueryWords

  // A character of a quoted payload, written plainly or behind a backslash.
  datatype Piece = Plain(c: char) | Escaped(c: char)
  datatype Item = Blank | Quoted(pieces: seq<Piece>)

  // lead name ' ' gap digits, then either ';' or ' ' items ';'; the rest is ignored.
  datatype Form = Form(lead: string, name: string, gap: string, digits: string, listed: bool, items: seq<Item>,
                       rest: string)

  function PieceText(p: Piece): string {
    match p
    case Plain(c) => [c]
    case Escaped(c) => ['\\', c]
  }

  function PiecesText(pieces: seq<Piece>): string {
    if pieces == [] then "" else PieceText(pieces[0]) + PiecesText(pieces[1..])
  }

  function PiecesMeaning(pieces: seq<Piece>): string {
    if pieces == [] then "" else [pieces[0].c] + PiecesMeaning(pieces[1..])
  }

  predicate PiecesOk(pieces: seq<Piece>) {
    forall i | 0 <= i < |pieces| :: pieces[i].Plain? ==> pieces[i].c != '"' && pieces[i].c != '\\'
  }

  function ItemText(i: Item): string {
    match i
    case Blank => " "
    case Quoted(pieces) => "\"" + PiecesText(pieces) + "\""
  }

  function ItemsText(items: seq<Item>): string {
    if items == [] then "" else ItemText(items[0]) + ItemsText(items[1..])
  }

  function ItemMeaning(i: Item): seq<string> {
    if i.Blank? then [] else [PiecesMeaning(i.pieces)]
  }

  function ItemsMeaning(items: seq<Item>): seq<string> {
    if items == [] then [] else ItemMeaning(items[0]) + ItemsMeaning(items[1..])
  }

  predicate ItemsOk(items: seq<Item>) {
    forall i | 0 <= i < |items| :: items[i].Quoted? ==> PiecesOk(items[i].pieces)
  }

  function TailText(f: Form): string {
    (if f.listed then " " + ItemsText(f.items) else "") + (";" + f.rest)
  }

  function Text(f: Form): string {
    f.lead + (f.name + (" " + (f.gap + (f.digits + TailText(f)))))
  }

  function Meaning(f: Form): Query
    requires WellFormed(f)
  {
    Query(true, Named(f.name), PlaceValue(f.digits), if f.listed then ItemsMeaning(f.items) else [])
  }

  predicate WellFormed(f: Form) {
    && (forall i | 0 <= i < |f.lead| :: f.lead[i] == ' ' || f.lead[i] == '\n')
    && Named(f.name) != Invalid
    && (forall i | 0 <= i < |f.gap| :: f.gap[i] == ' ')
    && f.digits != "" && Digits(f.digits) && PlaceValue(f.digits) < KEY_LIMIT
    && ItemsOk(f.items)
  }

  // The same in the words of the parser.
  predicate Readable(f: Form) {
    && (forall i | 0 <= i < |f.lead| :: f.lead[i] == ' ' || f.lead[i] == '\n')
    && (forall i | 0 <= i < |f.name| :: IsAlpha(f.name[i])) && CommandOf(Lower(f.name)) != Invalid
    && (forall i | 0 <= i < |f.gap| :: f.gap[i] == ' ')
    && f.digits != "" && (forall i | 0 <= i < |f.digits| :: IsDigit(f.digits[i])) && Number(f.digits) < KEY_LIMIT
    && ItemsOk(f.items)
  }

  function Reading(f: Form): Query
    requires Readable(f)
  {
    Query(true, CommandOf(Lower(f.name)), Number(f.digits), if f.listed then ItemsMeaning(f.items) else [])
  }

  lemma SameForms(f: Form)
    ensures WellFormed(f) <==> Readable(f)
    ensures WellFormed(f) ==> Meaning(f) == Reading(f)
  {
    hide ItemsOk, CommandOf, Lower, Number, Named, PlaceValue, ItemsMeaning, IsAlpha;
    CommandSpelled(f.name);
    NumberPlaces(f.digits);
    if Named(f.name) != Invalid {
      NamedLetters(f.name);
    }
  }

  // What the client makes of a line of input.
  function Parse(s: string): Query {
    Run(Machine(ExpectCommand, "", NO_QUERY), s)
  }

  // ----- every form is accepted with its meaning -----

  lemma {:induction false} RunLead(m: Machine, lead: string, s: string)
    requires m.state == ExpectCommand && forall i | 0 <= i < |lead| :: lead[i] == ' ' || lead[i] == '\n'
    ensures Run(m, lead + s) == Run(m, s)
    decreases |lead|
  {
    if lead == "" {
      assert lead + s == s;
    } else {
      RunLead(m, lead[1..], s);
      assert (lead + s)[0] == lead[0] && (lead + s)[1..] == lead[1..] + s;
    }
  }

  lemma {:induction false} RunGap(m: Machine, gap: string, s: string)
    requires (m.state == ExpectKey || m.state == ExpectPayload) && forall i | 0 <= i < |gap| :: gap[i] == ' '
    ensures Run(m, gap + s) == Run(m, s)
    decreases |gap|
  {
    if gap == "" {
      assert gap + s == s;
    } else {
      RunGap(m, gap[1..], s);
      assert (gap + s)[0] == gap[0] && (gap + s)[1..] == gap[1..] + s;
    }
  }

  lemma {:induction false} RunName(m: Machine, name: string, s: string)
    requires m.state == ReadCommand && forall i | 0 <= i < |name| :: IsAlpha(name[i])
    ensures Run(m, name + s) == Run(m.(temp := m.temp + Lower(name)), s)
    decreases |name|
  {
    hide Run, Lower, ToLower;
    if name == "" {
      NoName(m.temp, s);
    } else {
      var m' := m.(temp := m.temp + [ToLower(name[0])]);
      RunLetter(m, name, s);
      RunName(m', name[1..], s);
      LowerStep(m.temp, name);
    }
  }

  lemma NoName(temp: string, s: string)
    ensures "" + s == s && temp + Lower("") == temp
  {
  }

  lemma RunLetter(m: Machine, name: string, s: string)
    requires m.state == ReadCommand && name != "" && IsAlpha(name[0])
    ensures Run(m, name + s) == Run(m.(temp := m.temp + [ToLower(name[0])]), name[1..] + s)
  {
    hide CommandOf, Number, ToLower;
    assert (name + s)[0] == name[0] && (name + s)[1..] == name[1..] + s;
  }

  lemma LowerStep(temp: string, name: string)
    requires name != ""
    ensures temp + Lower(name) == (temp + [ToLower(name[0])]) + Lower(name[1..])
  {
  }

  lemma {:induction false} RunDigits(m: Machine, digits: string, s: string)
    requires m.state == ReadKey && forall i | 0 <= i < |digits| :: IsDigit(digits[i])
    ensures Run(m, digits + s) == Run(m.(temp := m.temp + digits), s)
    decreases |digits|
  {
    hide CommandOf, Number, ToLower;
    if digits == "" {
      assert digits + s == s && m.temp + digits == m.temp;
    } else {
      var m' := m.(temp := m.temp + [digits[0]]);
      RunDigits(m', digits[1..], s);
      assert (digits + s)[0] == digits[0] && (digits + s)[1..] == digits[1..] + s;
      assert m'.temp + digits[1..] == m.temp + digits;
    }
  }

  lemma {:induction false} RunPieces(m: Machine, pieces: seq<Piece>, s: string)
    requires m.state == ReadPayload && PiecesOk(pieces)
    ensures Run(m, PiecesText(pieces) + s) == Run(m.(temp := m.temp + PiecesMeaning(pieces)), s)
    decreases |pieces|
  {
    if pieces == [] {
      assert PiecesText(pieces) + s == s && m.temp + PiecesMeaning(pieces) == m.temp;
    } else {
      hide *;
      var m' := m.(temp := m.temp + [pieces[0].c]);
      PiecesStep(pieces, s, m.temp);
      RunPiece(m, pieces[0], PiecesText(pieces[1..]) + s);
      RunPieces(m', pieces[1..], s);
    }
  }

  lemma Regroup<T>(a: seq<T>, b: seq<T>, c: seq<T>)
    ensures (a + b) + c == a + (b + c)
  {
  }

  lemma PiecesStep(pieces: seq<Piece>, s: string, temp: string)
    requires pieces != [] && PiecesOk(pieces)
    ensures PiecesText(pieces) + s == PieceText(pieces[0]) + (PiecesText(pieces[1..]) + s)
    ensures temp + PiecesMeaning(pieces) == (temp + [pieces[0].c]) + PiecesMeaning(pieces[1..])
    ensures PiecesOk(pieces[1..]) && (pieces[0].Plain? ==> pieces[0].c != '"' && pieces[0].c != '\\')
  {
    assert PiecesText(pieces) == PieceText(pieces[0]) + PiecesText(pieces[1..]);
    assert PiecesMeaning(pieces) == [pieces[0].c] + PiecesMeaning(pieces[1..]);
    hide PieceText, PiecesText, PiecesMeaning;
    Regroup(PieceText(pieces[0]), PiecesText(pieces[1..]), s);
    Regroup(temp, [pieces[0].c], PiecesMeaning(pieces[1..]));
  }

  lemma RunPiece(m: Machine, p: Piece, t: string)
    requires m.state == ReadPayload && (p.Plain? ==> p.c != '"' && p.c != '\\')
    ensures Run(m, PieceText(p) + t) == Run(m.(temp := m.temp + [p.c]), t)
  {
    var s := PieceText(p) + t;
    if p.Plain? {
      assert s[1..] == t;
    } else {
      assert s[2..] == t && s[1] == p.c;
    }
  }

  lemma {:induction false} RunItems(m: Machine, items: seq<Item>, s: string)
    requires m.state == ExpectPayload && m.temp == "" && ItemsOk(items)
    ensures Run(m, ItemsText(items) + s) ==
            Run(m.(result := m.result.(payload := m.result.payload + ItemsMeaning(items))), s)
    decreases |items|
  {
    if items == [] {
      assert ItemsText(items) + s == s && m.result.payload + ItemsMeaning(items) == m.result.payload;
    } else {
      hide *;
      var m' := m.(result := m.result.(payload := m.result.payload + ItemMeaning(items[0])));
      ItemsStep(items, s, m.result.payload);
      RunItem(m, items[0], ItemsText(items[1..]) + s);
      RunItems(m', items[1..], s);
    }
  }

  lemma ItemsStep(items: seq<Item>, s: string, payload: seq<string>)
    requires items != [] && ItemsOk(items)
    ensures ItemsText(items) + s == ItemText(items[0]) + (ItemsText(items[1..]) + s)
    ensures payload + ItemsMeaning(items) == (payload + ItemMeaning(items[0])) + ItemsMeaning(items[1..])
    ensures ItemsOk(items[1..]) && (items[0].Quoted? ==> PiecesOk(items[0].pieces))
  {
    hide PiecesOk, ItemText, ItemMeaning;
    assert ItemsText(items) == ItemText(items[0]) + ItemsText(items[1..]);
    assert ItemsMeaning(items) == ItemMeaning(items[0]) + ItemsMeaning(items[1..]);
    hide ItemsText, ItemsMeaning;
    Regroup(ItemText(items[0]), ItemsText(items[1..]), s);
    Regroup(payload, ItemMeaning(items[0]), ItemsMeaning(items[1..]));
  }

  lemma RunItem(m: Machine, i: Item, t: string)
    requires m.state == ExpectPayload && m.temp == "" && (i.Quoted? ==> PiecesOk(i.pieces))
    ensures Run(m, ItemText(i) + t) == Run(m.(result := m.result.(payload := m.result.payload + ItemMeaning(i))), t)
  {
    match i
    case Blank =>
      assert (" " + t)[1..] == t && m.result.payload + [] == m.result.payload;
    case Quoted(pieces) =>
      var text := PiecesText(pieces);
      assert ItemText(i) + t == "\"" + (text + ("\"" + t));
      assert ("\"" + (text + ("\"" + t)))[1..] == text + ("\"" + t);
      RunPieces(m.(state := ReadPayload), pieces, "\"" + t);
      assert ("\"" + t)[1..] == t && "" + PiecesMeaning(pieces) == PiecesMeaning(pieces);
  }

  lemma RunTail(m: Machine, f: Form)
    requires m.state == ReadKey && m.temp == f.digits && Number(f.digits) < KEY_LIMIT && ItemsOk(f.items)
    ensures Run(m, TailText(f)) ==
            m.result.(valid := true, key := Number(f.digits),
            payload := m.result.payload + if f.listed then ItemsMeaning(f.items) else [])
  {
    hide Number, ItemsOk, CommandOf, ItemsText, ItemsMeaning;
    var end := ";" + f.rest;
    if f.listed {
      var m' := Machine(ExpectPayload, "", m.result.(key := Number(f.digits)));
      Regroup(" ", ItemsText(f.items), end);
      KeyEnds(m, ItemsText(f.items) + end);
      RunItems(m', f.items, end);
      ListEnds(m'.(result := m'.result.(payload := m'.result.payload + ItemsMeaning(f.items))), end);
    } else {
      assert m.result.payload + [] == m.result.payload && TailText(f) == end;
    }
  }

  lemma KeyEnds(m: Machine, s: string)
    requires m.state == ReadKey && Number(m.temp) < KEY_LIMIT
    ensures Run(m, " " + s) == Run(Machine(ExpectPayload, "", m.result.(key := Number(m.temp))), s)
  {
    hide Number, CommandOf;
    assert (" " + s)[1..] == s;
  }

  lemma ListEnds(m: Machine, s: string)
    requires m.state == ExpectPayload && s != "" && s[0] == ';'
    ensures Run(m, s) == m.result.(valid := true)
  {
  }

  lemma FormRead(f: Form)
    requires Readable(f)
    ensures Parse(Text(f)) == Reading(f)
  {
    hide Number, CommandOf, ItemsOk, IsAlpha, IsDigit, Run, TailText, Lower;
    NameGiven(f);
    var m0 := Machine(ExpectCommand, "", NO_QUERY);
    var s1 := f.name + (" " + (f.gap + (f.digits + TailText(f))));
    RunLead(m0, f.lead, s1);
    NameStarts(m0, f.name, " " + (f.gap + (f.digits + TailText(f))));
    RunName(m0.(state := ReadCommand), f.name, " " + (f.gap + (f.digits + TailText(f))));
    var m1 := Machine(ReadCommand, Lower(f.name), NO_QUERY);
    assert "" + Lower(f.name) == Lower(f.name);
    NameEnds(m1, f.gap + (f.digits + TailText(f)));
    var m2 := Machine(ExpectKey, "", NO_QUERY.(command := CommandOf(Lower(f.name))));
    RunGap(m2, f.gap, f.digits + TailText(f));
    DigitsStart(m2, f.digits, TailText(f));
    RunDigits(m2.(state := ReadKey), f.digits, TailText(f));
    assert "" + f.digits == f.digits;
    RunTail(Machine(ReadKey, f.digits, m2.result), f);
  }

  lemma FormAccepted(f: Form)
    requires WellFormed(f)
    ensures Parse(Text(f)) == Meaning(f)
  {
    hide *;
    SameForms(f);
    FormRead(f);
  }

  lemma NameGiven(f: Form)
    requires Readable(f)
    ensures f.name != "" && IsAlpha(f.name[0]) && IsDigit(f.digits[0])
  {
    hide Number, ToLower;
  }

  lemma NameStarts(m: Machine, name: string, s: string)
    requires m.state == ExpectCommand && name != "" && IsAlpha(name[0])
    ensures Run(m, name + s) == Run(m.(state := ReadCommand), name + s)
  {
    hide CommandOf;
    assert (name + s)[0] == name[0] && (name + s)[0..] == name + s;
  }

  lemma NameEnds(m: Machine, s: string)
    requires m.state == ReadCommand && CommandOf(m.temp) != Invalid
    ensures Run(m, " " + s) == Run(Machine(ExpectKey, "", m.result.(command := CommandOf(m.temp))), s)
  {
    hide CommandOf;
    assert (" " + s)[1..] == s;
  }

  lemma DigitsStart(m: Machine, digits: string, s: string)
    requires m.state == ExpectKey && digits != "" && IsDigit(digits[0])
    ensures Run(m, digits + s) == Run(m.(state := ReadKey), digits + s)
  {
    assert (digits + s)[0] == digits[0] && (digits + s)[0..] == digits + s;
  }

  // ----- whatever is accepted is a form -----

  lemma {:induction false} TakeLead(m: Machine, s: string) returns (lead: string, t: string)
    requires m.state == ExpectCommand && !m.result.valid && Run(m, s).valid
    ensures s == lead + t && forall i | 0 <= i < |lead| :: lead[i] == ' ' || lead[i] == '\n'
    ensures t != "" && IsAlpha(t[0]) && Run(m.(state := ReadCommand), t).valid
    decreases |s|
  {
    hide CommandOf, Number;
    assert s != "";
    if s[0] == ' ' || s[0] == '\n' {
      lead, t := TakeLead(m, s[1..]);
      lead := [s[0]] + lead;
    } else {
      lead, t := "", s;
      assert s[0..] == s;
    }
  }

  lemma {:induction false} TakeName(m: Machine, s: string) returns (name: string, t: string, m': Machine)
    requires m.state == ReadCommand && !m.result.valid && Run(m, s).valid
    ensures s == name + (" " + t) && forall i | 0 <= i < |name| :: IsAlpha(name[i])
    ensures CommandOf(m.temp + Lower(name)) != Invalid
    ensures m'.state == ExpectKey && !m'.result.valid && m'.temp == "" && Run(m', t).valid
    decreases |s|
  {
    hide CommandOf, Number, ToLower, IsDigit;
    assert s != "";
    if IsAlpha(s[0]) {
      name, t, m' := TakeName(m.(temp := m.temp + [ToLower(s[0])]), s[1..]);
      LowerStep(m.temp, [s[0]] + name);
      assert ([s[0]] + name)[1..] == name;
      name := [s[0]] + name;
    } else {
      name, t := "", s[1..];
      assert m.temp + Lower("") == m.temp && s == " " + t;
      m' := Machine(ExpectKey, "", m.result.(command := CommandOf(m.temp)));
    }
  }

  lemma {:induction false} TakeGap(m: Machine, s: string) returns (gap: string, t: string)
    requires m.state == ExpectKey && !m.result.valid && Run(m, s).valid
    ensures s == gap + t && forall i | 0 <= i < |gap| :: gap[i] == ' '
    ensures t != "" && IsDigit(t[0]) && Run(m.(state := ReadKey), t).valid
    decreases |s|
  {
    hide CommandOf, Number;
    assert s != "";
    if s[0] == ' ' {
      gap, t := TakeGap(m, s[1..]);
      gap := [s[0]] + gap;
    } else {
      gap, t := "", s;
      assert s[0..] == s;
    }
  }

  lemma {:induction false} TakeDigits(m: Machine, s: string) returns (digits: string, t: string, m': Machine)
    requires m.state == ReadKey && !m.result.valid && Run(m, s).valid
    ensures s == digits + t && forall i | 0 <= i < |digits| :: IsDigit(digits[i])
    ensures Number(m.temp + digits) < KEY_LIMIT && t != "" && !IsDigit(t[0])
    ensures t[0] == ';' || (t[0] == ' ' && m'.state == ExpectPayload && !m'.result.valid && Run(m', t[1..]).valid)
    decreases |s|
  {
    hide CommandOf, Number, ToLower, IsAlpha;
    assert s != "";
    if IsDigit(s[0]) {
      digits, t, m' := TakeDigits(m.(temp := m.temp + [s[0]]), s[1..]);
      assert m.temp + ([s[0]] + digits) == (m.temp + [s[0]]) + digits;
      digits := [s[0]] + digits;
    } else {
      digits, t := "", s;
      assert m.temp + "" == m.temp;
      m' := if Number(m.temp) < KEY_LIMIT then Machine(ExpectPayload, "", m.result.(key := Number(m.temp))) else m;
    }
  }

  lemma {:induction false} TakePieces(m: Machine, s: string) returns (pieces: seq<Piece>, t: string, m': Machine)
    requires m.state == ReadPayload && !m.result.valid && Run(m, s).valid
    ensures PiecesOk(pieces) && s == PiecesText(pieces) + ("\"" + t) && |t| < |s|
    ensures m'.state == ExpectPayload && !m'.result.valid && Run(m', t).valid
    decreases |s|
  {
    assert s != "";
    if s[0] == '"' {
      pieces, t := [], s[1..];
      assert s == "\"" + t;
      m' := Machine(ExpectPayload, "", m.result.(payload := m.result.payload + [m.temp]));
    } else {
      var k := if s[0] == '\\' then 2 else 1;
      var p := if k == 2 then Escaped(s[1]) else Plain(s[0]);
      pieces, t, m' := TakePieces(m.(temp := m.temp + [p.c]), s[k..]);
      hide Run;
      assert s == PieceText(p) + s[k..];
      PiecesFront(p, pieces, "\"" + t);
      pieces := [p] + pieces;
    }
  }

  lemma PiecesFront(p: Piece, pieces: seq<Piece>, s: string)
    requires PiecesOk(pieces) && (p.Plain? ==> p.c != '"' && p.c != '\\')
    ensures PiecesText([p] + pieces) + s == PieceText(p) + (PiecesText(pieces) + s) && PiecesOk([p] + pieces)
  {
    assert ([p] + pieces)[1..] == pieces;
    assert PiecesText([p] + pieces) == PieceText(p) + PiecesText(pieces);
    hide PieceText, PiecesText;
    Regroup(PieceText(p), PiecesText(pieces), s);
  }

  // How the text of an accepted list goes on.
  lemma ItemStarts(m: Machine, s: string)
    requires m.state == ExpectPayload && !m.result.valid && Run(m, s).valid
    ensures s != ""
    ensures s[0] != ';' && s[0] != ' ' ==> s[0] == '"' && Run(m.(state := ReadPayload), s[1..]).valid
    ensures s[0] == ' ' ==> Run(m, s[1..]).valid
  {
  }

  lemma {:induction false} TakeItems(m: Machine, s: string) returns (items: seq<Item>, rest: string)
    requires m.state == ExpectPayload && !m.result.valid && Run(m, s).valid
    ensures ItemsOk(items) && s == ItemsText(items) + (";" + rest)
    decreases |s|
  {
    hide Run, ItemsText, ItemText, ItemsOk, PiecesOk, PiecesText;
    ItemStarts(m, s);
    if s[0] == ';' {
      items, rest := [], s[1..];
      EmptyList(s);
    } else if s[0] == ' ' {
      items, rest := TakeItems(m, s[1..]);
      BlankText(s);
      ItemsFront(Blank, items, ";" + rest);
      items := [Blank] + items;
    } else {
      var pieces, t, m' := TakePieces(m.(state := ReadPayload), s[1..]);
      items, rest := TakeItems(m', t);
      QuotedText(pieces, t, s);
      ItemsFront(Quoted(pieces), items, ";" + rest);
      items := [Quoted(pieces)] + items;
    }
  }

  lemma EmptyList(s: string)
    requires s != "" && s[0] == ';'
    ensures ItemsOk([]) && s == ItemsText([]) + (";" + s[1..])
  {
    assert s == ";" + s[1..];
  }

  lemma BlankText(s: string)
    requires s != "" && s[0] == ' '
    ensures s == ItemText(Blank) + s[1..]
  {
  }

  lemma QuotedText(pieces: seq<Piece>, t: string, s: string)
    requires s != "" && s[0] == '"' && s[1..] == PiecesText(pieces) + ("\"" + t)
    ensures s == ItemText(Quoted(pieces)) + t
  {
    hide PiecesText;
    assert s == "\"" + s[1..];
  }

  lemma ItemsFront(i: Item, items: seq<Item>, s: string)
    requires ItemsOk(items) && (i.Quoted? ==> PiecesOk(i.pieces))
    ensures ItemsText([i] + items) + s == ItemText(i) + (ItemsText(items) + s) && ItemsOk([i] + items)
  {
    hide PiecesOk, ItemText;
    assert ([i] + items)[1..] == items;
    assert ItemsText([i] + items) == ItemText(i) + ItemsText(items);
    hide ItemsText;
    Regroup(ItemText(i), ItemsText(items), s);
  }

  lemma AcceptedIsForm(s: string) returns (f: Form)
    requires Parse(s).valid
    ensures WellFormed(f) && Text(f) == s && Parse(s) == Meaning(f)
  {
    hide *;
    f := AcceptedReads(s);
    SameForms(f);
    FormRead(f);
  }

  lemma AcceptedReads(s: string) returns (f: Form)
    requires Parse(s).valid
    ensures Readable(f) && Text(f) == s
  {
    hide Run, Number, CommandOf, Lower, IsAlpha, IsDigit, ItemsOk, ItemsText;
    var m0 := Machine(ExpectCommand, "", NO_QUERY);
    var lead, s1 := TakeLead(m0, s);
    var name, s2, m2 := TakeName(m0.(state := ReadCommand), s1);
    assert "" + Lower(name) == Lower(name);
    var gap, s3 := TakeGap(m2, s2);
    var digits, s4, m4 := TakeDigits(m2.(state := ReadKey), s3);
    assert "" + digits == digits;
    assert digits != "" by { assert digits == "" ==> s3 == s4; }
    if s4[0] == ';' {
      f := Form(lead, name, gap, digits, false, [], s4[1..]);
      assert TailText(f) == s4;
      NoItems();
    } else {
      var items, rest := TakeItems(m4, s4[1..]);
      f := Form(lead, name, gap, digits, true, items, rest);
      ListedTail(f, s4);
    }
    assert Text(f) == s;
  }

  // The valid queries are exactly the texts of well-formed forms.
  lemma ValidExactly(s: string)
    ensures Parse(s).valid <==> exists f :: WellFormed(f) && Text(f) == s
  {
    hide Run, WellFormed, Text;
    if Parse(s).valid {
      var f := AcceptedIsForm(s);
    }
    if f :| WellFormed(f) && Text(f) == s {
      FormAccepted(f);
    }
  }

  lemma NoItems()
    ensures ItemsOk([])
  {
  }

  lemma ListedTail(f: Form, s: string)
    requires f.listed && s != "" && s[0] == ' ' && s[1..] == ItemsText(f.items) + (";" + f.rest)
    ensures TailText(f) == s
  {
    hide ItemsText;
    Regroup(" ", ItemsText(f.items), ";" + f.rest);
    assert s == " " + s[1..];
  }

  // ----- printing -----

  function Digit(d: nat): char
    requires d < 10
  {
    '0' + d as char
  }

  function Decimal(k: nat): string {
    if k < 10 then [Digit(k)] else Decimal(k / 10) + [Digit(k % 10)]
  }

  lemma {:induction false} DecimalNumber(k: nat)
    ensures Number(Decimal(k)) == k && Decimal(k) != ""
    ensures forall i | 0 <= i < |Decimal(k)| :: IsDigit(Decimal(k)[i])
  {
    if k < 10 {
      assert Decimal(k)[..0] == "";
    } else {
      DecimalNumber(k / 10);
      assert Decimal(k)[..|Decimal(k)| - 1] == Decimal(k / 10);
    }
  }

  function NameOf(c: Command): string {
    match c
    case Search => "search"
    case Insert => "insert"
    case Delete => "delete"
    case Quit => "quit"
    case Invalid => "?"
  }

  // Quotes and backslashes are escaped, everything else is written as it is.
  function Quote(s: string): seq<Piece> {
    if s == "" then [] else [if s[0] == '"' || s[0] == '\\' then Escaped(s[0]) else Plain(s[0])] + Quote(s[1..])
  }

  lemma {:induction false} QuoteMeaning(s: string)
    ensures PiecesOk(Quote(s)) && PiecesMeaning(Quote(s)) == s
  {
    if s != "" {
      QuoteMeaning(s[1..]);
      assert Quote(s)[1..] == Quote(s[1..]);
      assert forall i | 0 <= i < |Quote(s[1..])| :: Quote(s)[i + 1] == Quote(s[1..])[i];
    }
  }

  function Listing(payload: seq<string>): seq<Item> {
    if payload == [] then [] else [Quoted(Quote(payload[0]))] + Listing(payload[1..])
  }

  lemma {:induction false} ListingMeaning(payload: seq<string>)
    ensures ItemsOk(Listing(payload)) && ItemsMeaning(Listing(payload)) == payload
  {
    hide Quote, PiecesOk, PiecesMeaning;
    if payload != [] {
      ListingMeaning(payload[1..]);
      QuoteMeaning(payload[0]);
      assert Listing(payload)[1..] == Listing(payload[1..]);
      assert forall i | 0 <= i < |Listing(payload[1..])| :: Listing(payload)[i + 1] == Listing(payload[1..])[i];
    }
  }

  function Printed(q: Query): Form {
    Form("", NameOf(q.command), "", Decimal(q.key), true, Listing(q.payload), "")
  }

  // The parser undoes the printer, whatever bytes the payloads hold.
  lemma PrintParses(q: Query)
    requires q.valid && q.command != Invalid
    ensures Parse(Text(Printed(q))) == q
  {
    hide Run, Number, Decimal, Listing, ItemsMeaning, ItemsOk, Text, PlaceValue;
    NumberPlaces(Decimal(q.key));
    DecimalNumber(q.key);
    ListingMeaning(q.payload);
    NamesParse(q.command);
    FormAccepted(Printed(q));
  }

  lemma NamesParse(c: Command)
    requires c != Invalid
    ensures Named(NameOf(c)) == c
  {
    var name := NameOf(c);
    assert SmallLetters(name) && Spells(name, name);
    LowerSpells(name, name);
    CommandSpelled(name);
  }

  // ----- the command word -----

  // A word before a space is taken exactly if it spells a command, in any mix of cases.
  lemma WordAccepted(word: string, digits: string)
    requires forall i | 0 <= i < |word| :: word[i] != ' ' && word[i] != '\n'
    requires digits != "" && Digits(digits) && PlaceValue(digits) < KEY_LIMIT
    ensures var q := Parse(word + (" " + (digits + ";")));
            && (q.valid <==> Named(word) != Invalid)
            && (q.valid ==> q == Query(true, Named(word), PlaceValue(digits), []))
  {
    hide Run, Named, PlaceValue;
    var s := word + (" " + (digits + ";"));
    if Named(word) != Invalid {
      var f := Form("", word, "", digits, false, [], "");
      NoItems();
      PlainText(word, digits);
      FormAccepted(f);
    }
    if Parse(s).valid {
      var f := AcceptedIsForm(s);
      OneWord(f, word, digits);
    }
  }

  lemma PlainText(word: string, digits: string)
    ensures Text(Form("", word, "", digits, false, [], "")) == word + (" " + (digits + ";"))
  {
    assert digits + TailText(Form("", word, "", digits, false, [], "")) == digits + ";";
    assert "" + (digits + ";") == digits + ";";
  }

  lemma OneWord(f: Form, word: string, digits: string)
    requires WellFormed(f) && Text(f) == word + (" " + (digits + ";"))
    requires forall i | 0 <= i < |word| :: word[i] != ' ' && word[i] != '\n'
    requires digits != "" && Digits(digits)
    ensures f.name == word
  {
    hide Named, PlaceValue, TailText, ItemsOk;
    var s := Text(f);
    var t := " " + (f.gap + (f.digits + TailText(f)));
    NamedLetters(f.name);
    var n := |f.lead|;
    assert n > 0 ==> s[0] == f.lead[0];
    if word == "" {
      assert s == " " + (digits + ";");
      NoLetter(digits, n);
    }
    assert s[n] == f.name[0];
    assert s[0] == word[0];
    assert s == f.name + t;
    FirstSpace(f.name, t, word, " " + (digits + ";"));
  }

  lemma NoLetter(digits: string, n: nat)
    requires Digits(digits) && n < |" " + (digits + ";")|
    ensures !IsAlpha((" " + (digits + ";"))[n])
  {
  }

  lemma FirstSpace(a: string, t: string, b: string, u: string)
    requires a + t == b + u && t != "" && u != "" && t[0] == ' ' && u[0] == ' '
    requires (forall i | 0 <= i < |a| :: a[i] != ' ') && (forall i | 0 <= i < |b| :: b[i] != ' ')
    ensures a == b
  {
    var s := a + t;
    assert s[|a|] == ' ' && forall i | 0 <= i < |a| :: s[i] == a[i];
    assert s == b + u;
    assert s[|b|] == ' ' && forall i | 0 <= i < |b| :: s[i] == b[i];
    assert s[..|a|] == a && s[..|b|] == b;
  }
}

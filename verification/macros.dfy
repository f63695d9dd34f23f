/**
 * The `partial_struct!` procedural macro: its input parser and what it
 * expands to. The token stream is abstracted to a list of tokens in which a
 * type is one token and a bracketed group carries its content.
 */
module Macros {
  import opened Wrappers

  datatype Token =
    | Ident(name: string)         // an identifier, also a one-segment path type such as `u32`
    | Punct(ch: char)             // `,` `:` and other punctuation
    | StrLit(text: string)        // a string literal
    | TypeExpr(text: string)      // a type that is more than one identifier, e.g. `Option<u32>`
    | Bracket(content: seq<Token>) // a `[ ... ]` group
    | Other(text: string)         // any other token

  /** `ParsedStructMember`: a field of the full struct. */
  datatype Member = Member(name: string, ty: string)

  /** `ParsedPartialStructMember`: a field of the partial struct with its wire name. */
  datatype PartialMember = PartialMember(name: string, ty: string, serdeName: string)

  /** `ParsedStruct`. */
  datatype ParsedStruct = ParsedStruct(name: string, members: seq<Member>, partialMembers: seq<PartialMember>)

  /** A `syn::Error` returned through `?`, or a `panic!` inside the parser. */
  datatype ParseError = SynError(msg: string) | Panic(msg: string)

  /** What the member loop leaves behind: members, partial members, unparsed tokens, and whether a bracket held extra tokens. */
  datatype MemberList = MemberList(members: seq<Member>, partialMembers: seq<PartialMember>, rest: seq<Token>, stray: bool)

  /** `input.parse::<Type>()` on one token. */
  function TypeText(t: Token): Option<string> {
    match t
    case Ident(n) => Some(n)
    case TypeExpr(x) => Some(x)
    case _ => None
  }

  /** The two member lists were pushed in lockstep: same length, same names and types. */
  predicate Lockstep(ms: seq<Member>, pms: seq<PartialMember>) {
    && |ms| == |pms|
    && forall k :: 0 <= k < |ms| ==> ms[k].name == pms[k].name && ms[k].ty == pms[k].ty
  }

  /** The `while !input.is_empty()` loop of `ParsedStruct::parse`. */
  function ParseMembers(ts: seq<Token>): (r: Result<MemberList, ParseError>)
    ensures r.Ok? ==> Lockstep(r.value.members, r.value.partialMembers)
    ensures r.Ok? ==> |r.value.rest| <= |ts| && r.value.rest == ts[|ts| - |r.value.rest|..]
    decreases |ts|
  {
    if |ts| == 0 then Ok(MemberList([], [], [], false))
    else if !ts[0].Ident? then Ok(MemberList([], [], ts, false))
    else if |ts| < 2 || ts[1] != Punct(':') then Err(SynError("expected `:`"))
    else if |ts| < 3 || TypeText(ts[2]).None? then Err(Panic("Expected a type"))
    else if |ts| < 4 || !ts[3].Bracket? then Err(SynError("expected square brackets"))
    else if |ts[3].content| == 0 || !ts[3].content[0].StrLit? then Err(Panic("Expected a string literal"))
    else
      var name, ty, serde := ts[0].name, TypeText(ts[2]).value, ts[3].content[0].text;
      var m, pm := Member(name, ty), PartialMember(name, ty, serde);
      var stray := |ts[3].content| > 1;
      if |ts| < 5 || ts[4] != Punct(',') then Ok(MemberList([m], [pm], ts[4..], stray))
      else
        match ParseMembers(ts[5..])
        case Err(e) => Err(e)
        case Ok(more) =>
          Ok(MemberList([m] + more.members, [pm] + more.partialMembers, more.rest, stray || more.stray))
  }

  /**
   * `parse_macro_input!(item as ParsedStruct)`: `ParsedStruct::parse` followed
   * by syn's check that every token, brackets included, was consumed.
   */
  function ParseInput(ts: seq<Token>): (r: Result<ParsedStruct, ParseError>)
    ensures r.Ok? ==> |ts| >= 2 && ts[0] == Ident(r.value.name) && ts[1] == Punct(',')
    ensures r.Ok? ==> Lockstep(r.value.members, r.value.partialMembers)
  {
    if |ts| == 0 || !ts[0].Ident? then Err(SynError("expected identifier"))
    else if |ts| < 2 || ts[1] != Punct(',') then Err(SynError("expected `,`"))
    else
      match ParseMembers(ts[2..])
      case Err(e) => Err(e)
      case Ok(ml) =>
        if ml.stray || |ml.rest| > 0 then Err(SynError("unexpected token"))
        else Ok(ParsedStruct(ts[0].name, ml.members, ml.partialMembers))
  }

  /** A comma after the struct name is required. */
  lemma NameNeedsComma(ts: seq<Token>)
    requires |ts| >= 1 && (|ts| == 1 || ts[1] != Punct(','))
    ensures ParseInput(ts).Err?
  {
  }

  /**
   * A declared field: identifier, type text and bracketed wire name. A
   * `simpleType` is written as a single identifier (`u32`, `String`), any
   * other type as a longer type expression (`Option<u32>`).
   */
  datatype FieldDecl = FieldDecl(name: string, ty: string, simpleType: bool, wire: string)

  /** The token a declared type is written as. */
  function TypeToken(d: FieldDecl): (t: Token)
    ensures TypeText(t) == Some(d.ty)
    ensures t.Ident? <==> d.simpleType
  {
    if d.simpleType then Ident(d.ty) else TypeExpr(d.ty)
  }

  /** The tokens of one `name: Type ["wire"]` declaration. */
  function DeclTokens(d: FieldDecl): seq<Token> {
    [Ident(d.name), Punct(':'), TypeToken(d), Bracket([StrLit(d.wire)])]
  }

  /** The tokens of a field list, comma separated, with an optional trailing comma. */
  function DeclListTokens(ds: seq<FieldDecl>, trailingComma: bool): seq<Token>
    decreases |ds|
  {
    if |ds| == 0 then []
    else if |ds| == 1 then DeclTokens(ds[0]) + (if trailingComma then [Punct(',')] else [])
    else DeclTokens(ds[0]) + [Punct(',')] + DeclListTokens(ds[1..], trailingComma)
  }

  /** The macro input `Name, field: Type ["wire"], ...`. */
  function InputTokens(name: string, ds: seq<FieldDecl>, trailingComma: bool): seq<Token> {
    [Ident(name), Punct(',')] + DeclListTokens(ds, trailingComma)
  }

  function MembersOf(ds: seq<FieldDecl>): (ms: seq<Member>)
    ensures |ms| == |ds|
    ensures forall k :: 0 <= k < |ds| ==> ms[k] == Member(ds[k].name, ds[k].ty)
  {
    seq(|ds|, k requires 0 <= k < |ds| => Member(ds[k].name, ds[k].ty))
  }

  function PartialMembersOf(ds: seq<FieldDecl>): (pms: seq<PartialMember>)
    ensures |pms| == |ds|
    ensures forall k :: 0 <= k < |ds| ==> pms[k] == PartialMember(ds[k].name, ds[k].ty, ds[k].wire)
  {
    seq(|ds|, k requires 0 <= k < |ds| => PartialMember(ds[k].name, ds[k].ty, ds[k].wire))
  }

  /** The member lists of a non-empty field list start with its first declaration. */
  lemma MembersOfCons(ds: seq<FieldDecl>)
    requires |ds| > 0
    ensures MembersOf(ds) == [Member(ds[0].name, ds[0].ty)] + MembersOf(ds[1..])
    ensures PartialMembersOf(ds) == [PartialMember(ds[0].name, ds[0].ty, ds[0].wire)] + PartialMembersOf(ds[1..])
  {
  }

  /** One step of the member loop over a well-formed declaration followed by `tail`. */
  lemma {:induction false} ParseDeclStep(d: FieldDecl, tail: seq<Token>)
    ensures var r := ParseMembers(DeclTokens(d) + tail);
      var m, pm := Member(d.name, d.ty), PartialMember(d.name, d.ty, d.wire);
      if |tail| == 0 || tail[0] != Punct(',') then r == Ok(MemberList([m], [pm], tail, false))
      else r == match ParseMembers(tail[1..])
        case Err(e) => Err(e)
        case Ok(more) => Ok(MemberList([m] + more.members, [pm] + more.partialMembers, more.rest, more.stray))
  {
    var ts := DeclTokens(d) + tail;
    assert ts[0] == Ident(d.name) && ts[1] == Punct(':') && ts[2] == TypeToken(d);
    assert ts[3] == Bracket([StrLit(d.wire)]);
    assert ts[4..] == tail;
    if |tail| > 0 {
      assert ts[5..] == tail[1..];
    }
  }

  /** Parsing a well-formed field list yields its declarations in order and consumes everything. */
  lemma {:induction false} ParseMembersOfDecls(ds: seq<FieldDecl>, trailingComma: bool)
    ensures ParseMembers(DeclListTokens(ds, trailingComma))
         == Ok(MemberList(MembersOf(ds), PartialMembersOf(ds), [], false))
    decreases |ds|
  {
    if |ds| == 1 {
      var tail: seq<Token> := if trailingComma then [Punct(',')] else [];
      assert DeclListTokens(ds, trailingComma) == DeclTokens(ds[0]) + tail;
      ParseDeclStep(ds[0], tail);
      if trailingComma {
        assert tail[1..] == [];
        assert ParseMembers(tail[1..]) == Ok(MemberList([], [], [], false));
      }
      MembersOfCons(ds);
      assert MembersOf(ds[1..]) == [] && PartialMembersOf(ds[1..]) == [];
      var m, pm := Member(ds[0].name, ds[0].ty), PartialMember(ds[0].name, ds[0].ty, ds[0].wire);
      assert MembersOf(ds) == [m] && PartialMembersOf(ds) == [pm];
      assert ParseMembers(DeclTokens(ds[0]) + tail) == Ok(MemberList([m], [pm], [], false));
    } else if |ds| > 1 {
      var tail := [Punct(',')] + DeclListTokens(ds[1..], trailingComma);
      assert DeclListTokens(ds, trailingComma) == DeclTokens(ds[0]) + tail;
      ParseDeclStep(ds[0], tail);
      assert tail[1..] == DeclListTokens(ds[1..], trailingComma);
      ParseMembersOfDecls(ds[1..], trailingComma);
      MembersOfCons(ds);
    }
  }

  /** Round trip: the macro input written from a struct name and field list parses back to exactly them. */
  lemma ParseInputRoundTrip(name: string, ds: seq<FieldDecl>, trailingComma: bool)
    ensures ParseInput(InputTokens(name, ds, trailingComma))
         == Ok(ParsedStruct(name, MembersOf(ds), PartialMembersOf(ds)))
  {
    var ts := InputTokens(name, ds, trailingComma);
    assert ts[0] == Ident(name) && ts[1] == Punct(',');
    assert ts[2..] == DeclListTokens(ds, trailingComma);
    ParseMembersOfDecls(ds, trailingComma);
  }

  /** A field list without a trailing comma, followed by tokens that do not start with a comma, parses up to those tokens. */
  lemma {:induction false} ParseMembersStopsAtJunk(ds: seq<FieldDecl>, junk: seq<Token>)
    requires |ds| > 0
    requires |junk| > 0 && junk[0] != Punct(',')
    ensures ParseMembers(DeclListTokens(ds, false) + junk)
         == Ok(MemberList(MembersOf(ds), PartialMembersOf(ds), junk, false))
    decreases |ds|
  {
    MembersOfCons(ds);
    if |ds| == 1 {
      assert DeclListTokens(ds, false) + junk == DeclTokens(ds[0]) + junk;
      ParseDeclStep(ds[0], junk);
      assert MembersOf(ds[1..]) == [] && PartialMembersOf(ds[1..]) == [];
      var m, pm := Member(ds[0].name, ds[0].ty), PartialMember(ds[0].name, ds[0].ty, ds[0].wire);
      assert MembersOf(ds) == [m] && PartialMembersOf(ds) == [pm];
    } else {
      var tail := [Punct(',')] + (DeclListTokens(ds[1..], false) + junk);
      assert DeclListTokens(ds, false) + junk == DeclTokens(ds[0]) + tail;
      ParseDeclStep(ds[0], tail);
      assert tail[1..] == DeclListTokens(ds[1..], false) + junk;
      ParseMembersStopsAtJunk(ds[1..], junk);
    }
  }

  /** A field list with a trailing comma, followed by tokens that do not start with an identifier, parses up to those tokens. */
  lemma {:induction false} ParseMembersStopsAfterComma(ds: seq<FieldDecl>, junk: seq<Token>)
    requires |ds| > 0
    requires |junk| > 0 && !junk[0].Ident?
    ensures ParseMembers(DeclListTokens(ds, true) + junk)
         == Ok(MemberList(MembersOf(ds), PartialMembersOf(ds), junk, false))
    decreases |ds|
  {
    MembersOfCons(ds);
    var tail := if |ds| == 1 then [Punct(',')] + junk else [Punct(',')] + (DeclListTokens(ds[1..], true) + junk);
    assert DeclListTokens(ds, true) + junk == DeclTokens(ds[0]) + tail;
    ParseDeclStep(ds[0], tail);
    if |ds| == 1 {
      assert tail[1..] == junk;
      assert ParseMembers(junk) == Ok(MemberList([], [], junk, false));
      assert MembersOf(ds[1..]) == [] && PartialMembersOf(ds[1..]) == [];
    } else {
      assert tail[1..] == DeclListTokens(ds[1..], true) + junk;
      ParseMembersStopsAfterComma(ds[1..], junk);
    }
  }

  /** Tokens after the last member that is not followed by a comma make the input fail. */
  lemma MissingCommaRejected(name: string, ds: seq<FieldDecl>, junk: seq<Token>)
    requires |ds| > 0
    requires |junk| > 0 && junk[0] != Punct(',')
    ensures ParseInput(InputTokens(name, ds, false) + junk) == Err(SynError("unexpected token"))
  {
    var ts := InputTokens(name, ds, false) + junk;
    assert ts[0] == Ident(name) && ts[1] == Punct(',');
    assert ts[2..] == DeclListTokens(ds, false) + junk;
    ParseMembersStopsAtJunk(ds, junk);
  }

  /** A complete, stray-free parse of a non-empty token list starts with a well-shaped member. */
  lemma MemberStepShape(ts: seq<Token>)
    requires |ts| > 0
    requires ParseMembers(ts).Ok? && ParseMembers(ts).value.rest == [] && !ParseMembers(ts).value.stray
    ensures |ts| >= 4 && ts[0].Ident? && ts[1] == Punct(':') && TypeText(ts[2]).Some?
    ensures ts[3].Bracket? && |ts[3].content| == 1 && ts[3].content[0].StrLit?
    ensures |ts| > 4 ==> ts[4] == Punct(',')
  {
  }

  /** ... and when that member is the last one, it is the only member parsed. */
  lemma MemberStepLast(ts: seq<Token>)
    requires |ts| == 4 && ts[0].Ident? && ts[1] == Punct(':') && TypeText(ts[2]).Some?
    requires ts[3].Bracket? && |ts[3].content| == 1 && ts[3].content[0].StrLit?
    ensures ParseMembers(ts) == Ok(MemberList([Member(ts[0].name, TypeText(ts[2]).value)],
      [PartialMember(ts[0].name, TypeText(ts[2]).value, ts[3].content[0].text)], [], false))
  {
  }

  /** ... and when a comma follows it, the loop goes on with the tokens after the comma. */
  lemma MemberStepCons(ts: seq<Token>)
    requires |ts| > 4 && ts[0].Ident? && ts[1] == Punct(':') && TypeText(ts[2]).Some?
    requires ts[3].Bracket? && |ts[3].content| == 1 && ts[3].content[0].StrLit? && ts[4] == Punct(',')
    ensures ParseMembers(ts) == match ParseMembers(ts[5..])
      case Err(e) => Err(e)
      case Ok(more) => Ok(MemberList(
        [Member(ts[0].name, TypeText(ts[2]).value)] + more.members,
        [PartialMember(ts[0].name, TypeText(ts[2]).value, ts[3].content[0].text)] + more.partialMembers,
        more.rest, more.stray))
  {
  }

  /** The declaration a well-shaped first member is written from. */
  function DeclAt(ts: seq<Token>): (d: FieldDecl)
    requires |ts| >= 4 && ts[0].Ident? && ts[1] == Punct(':') && TypeText(ts[2]).Some?
    requires ts[3].Bracket? && |ts[3].content| == 1 && ts[3].content[0].StrLit?
    ensures ts[..4] == DeclTokens(d)
    ensures d.name == ts[0].name && d.ty == TypeText(ts[2]).value && d.wire == ts[3].content[0].text
  {
    var d := FieldDecl(ts[0].name, TypeText(ts[2]).value, ts[2].Ident?, ts[3].content[0].text);
    assert TypeToken(d) == ts[2];
    assert ts[3] == Bracket([StrLit(d.wire)]);
    d
  }

  /** A complete, stray-free parse is exactly the written field list it came from. */
  predicate ParsedAs(ts: seq<Token>, ds: seq<FieldDecl>, trailingComma: bool) {
    && ts == DeclListTokens(ds, trailingComma)
    && ParseMembers(ts).Ok?
    && ParseMembers(ts).value.members == MembersOf(ds)
    && ParseMembers(ts).value.partialMembers == PartialMembersOf(ds)
  }

  /**
   * The converse of the round trip for the member loop: a token list that the
   * loop consumes completely, with no extra bracket content, is a written
   * field list.
   */
  lemma {:induction false} MembersConverse(ts: seq<Token>) returns (ds: seq<FieldDecl>, trailingComma: bool)
    requires ParseMembers(ts).Ok? && ParseMembers(ts).value.rest == [] && !ParseMembers(ts).value.stray
    ensures ts == DeclListTokens(ds, trailingComma)
    ensures ParseMembers(ts).value.members == MembersOf(ds)
    ensures ParseMembers(ts).value.partialMembers == PartialMembersOf(ds)
    decreases |ts|
  {
    if |ts| == 0 {
      ds, trailingComma := [], false;
    } else if |ts| == 4 {
      MemberStepShape(ts);
      ds, trailingComma := ConverseLast(ts);
    } else if |ts| == 5 {
      MemberStepShape(ts);
      ds, trailingComma := ConverseTrailing(ts);
    } else {
      MemberStepShape(ts);
      MemberStepCons(ts);
      var more, tc := MembersConverse(ts[5..]);
      ds, trailingComma := ConverseCons(ts, more, tc);
    }
    assert ParsedAs(ts, ds, trailingComma);
  }

  /** A lone well-shaped member is a one-field list without a trailing comma. */
  lemma ConverseLast(ts: seq<Token>) returns (ds: seq<FieldDecl>, trailingComma: bool)
    requires |ts| == 4 && ts[0].Ident? && ts[1] == Punct(':') && TypeText(ts[2]).Some?
    requires ts[3].Bracket? && |ts[3].content| == 1 && ts[3].content[0].StrLit?
    ensures ParsedAs(ts, ds, trailingComma)
  {
    var d := DeclAt(ts);
    ds, trailingComma := [d], false;
    SingleDecl(d, false);
    MemberStepLast(ts);
    assert ts == ts[..4];
  }

  /** A well-shaped member and a comma is a one-field list with its trailing comma. */
  lemma ConverseTrailing(ts: seq<Token>) returns (ds: seq<FieldDecl>, trailingComma: bool)
    requires |ts| == 5 && ts[0].Ident? && ts[1] == Punct(':') && TypeText(ts[2]).Some?
    requires ts[3].Bracket? && |ts[3].content| == 1 && ts[3].content[0].StrLit? && ts[4] == Punct(',')
    ensures ParsedAs(ts, ds, trailingComma)
  {
    var d := DeclAt(ts);
    ds, trailingComma := [d], true;
    SingleDecl(d, true);
    ConsTokens(ts, d);
    assert ts[5..] == [];
    MemberStepCons(ts);
  }

  /** A first field, a comma and a non-empty written list after it form a written list. */
  lemma ConverseCons(ts: seq<Token>, more: seq<FieldDecl>, tc: bool) returns (ds: seq<FieldDecl>, trailingComma: bool)
    requires |ts| > 5 && ts[0].Ident? && ts[1] == Punct(':') && TypeText(ts[2]).Some?
    requires ts[3].Bracket? && |ts[3].content| == 1 && ts[3].content[0].StrLit? && ts[4] == Punct(',')
    requires ParsedAs(ts[5..], more, tc)
    ensures ParsedAs(ts, ds, trailingComma)
  {
    var d := DeclAt(ts);
    assert |more| > 0;
    ds, trailingComma := [d] + more, tc;
    ConsDecl(d, more, tc);
    ConsTokens(ts, d);
    MemberStepCons(ts);
  }

  /** A token list is its first declaration, the comma, and the tokens after the comma. */
  lemma ConsTokens(ts: seq<Token>, d: FieldDecl)
    requires |ts| > 4 && ts[..4] == DeclTokens(d) && ts[4] == Punct(',')
    ensures ts == DeclTokens(d) + [Punct(',')] + ts[5..]
  {
    assert ts == ts[..4] + [ts[4]] + ts[5..];
  }

  /** The written form and member lists of a one-field list. */
  lemma SingleDecl(d: FieldDecl, trailingComma: bool)
    ensures DeclListTokens([d], trailingComma) == DeclTokens(d) + (if trailingComma then [Punct(',')] else [])
    ensures MembersOf([d]) == [Member(d.name, d.ty)]
    ensures PartialMembersOf([d]) == [PartialMember(d.name, d.ty, d.wire)]
  {
  }

  /** The written form and member lists of a field list with at least two fields. */
  lemma ConsDecl(d: FieldDecl, more: seq<FieldDecl>, trailingComma: bool)
    requires |more| > 0
    ensures DeclListTokens([d] + more, trailingComma) == DeclTokens(d) + [Punct(',')] + DeclListTokens(more, trailingComma)
    ensures MembersOf([d] + more) == [Member(d.name, d.ty)] + MembersOf(more)
    ensures PartialMembersOf([d] + more) == [PartialMember(d.name, d.ty, d.wire)] + PartialMembersOf(more)
  {
    assert ([d] + more)[1..] == more;
    MembersOfCons([d] + more);
  }

  /** The parser accepts only written inputs: every successful parse is the parse of a written struct name and field list. */
  lemma InputConverse(ts: seq<Token>) returns (ds: seq<FieldDecl>, trailingComma: bool)
    requires ParseInput(ts).Ok?
    ensures ts == InputTokens(ParseInput(ts).value.name, ds, trailingComma)
    ensures ParseInput(ts).value == ParsedStruct(ParseInput(ts).value.name, MembersOf(ds), PartialMembersOf(ds))
  {
    ds, trailingComma := MembersConverse(ts[2..]);
    assert ts == [ts[0], ts[1]] + ts[2..];
  }

  /** Field parsing stops at the first token that is not an identifier, and what is left over is rejected. */
  lemma NonIdentifierAfterCommaRejected(name: string, ds: seq<FieldDecl>, junk: seq<Token>)
    requires |ds| > 0
    requires |junk| > 0 && !junk[0].Ident?
    ensures ParseInput(InputTokens(name, ds, true) + junk) == Err(SynError("unexpected token"))
  {
    var ts := InputTokens(name, ds, true) + junk;
    assert ts[0] == Ident(name) && ts[1] == Punct(',');
    assert ts[2..] == DeclListTokens(ds, true) + junk;
    ParseMembersStopsAfterComma(ds, junk);
  }

  /** The generated items: the full struct, the partial struct, the update order, and the key list. */
  datatype Expansion = Expansion(
    name: string,
    fields: seq<(string, string)>,
    partialName: string,
    partialFields: seq<PartialField>,
    updateOrder: seq<string>,
    keys: seq<string>)

  /** A partial struct field: `#[serde(rename = wire)] pub name: Option<ty>`. */
  datatype PartialField = PartialField(name: string, ty: string, rename: string)

  /** `get_keys()`: the wire names of the partial members, in declaration order. */
  function GetKeys(pms: seq<PartialMember>): (keys: seq<string>)
    ensures |keys| == |pms|
    ensures forall k :: 0 <= k < |pms| ==> keys[k] == pms[k].serdeName
    decreases |pms|
  {
    if |pms| == 0 then [] else [pms[0].serdeName] + GetKeys(pms[1..])
  }

  /** The `quote!` output of `partial_struct`. */
  function Expand(p: ParsedStruct): (e: Expansion)
    ensures e.name == p.name && e.partialName == "Partial" + p.name
    ensures |e.fields| == |p.members|
    ensures |e.partialFields| == |e.updateOrder| == |e.keys| == |p.partialMembers|
    ensures forall k :: 0 <= k < |p.partialMembers| ==>
      && e.partialFields[k].name == e.updateOrder[k]
      && e.partialFields[k].rename == e.keys[k]
    ensures Lockstep(p.members, p.partialMembers) ==>
      forall k :: 0 <= k < |p.members| ==>
        && e.partialFields[k].name == e.fields[k].0
        && e.partialFields[k].ty == "Option<" + e.fields[k].1 + ">"
    ensures forall k :: 0 <= k < |p.members| ==> e.fields[k] == (p.members[k].name, p.members[k].ty)
    ensures forall k :: 0 <= k < |p.partialMembers| ==>
      && e.updateOrder[k] == p.partialMembers[k].name
      && e.keys[k] == p.partialMembers[k].serdeName
      && e.partialFields[k].name == p.partialMembers[k].name
      && e.partialFields[k].rename == p.partialMembers[k].serdeName
      && e.partialFields[k].ty == "Option<" + p.partialMembers[k].ty + ">"
  {
    Expansion(
      p.name,
      seq(|p.members|, k requires 0 <= k < |p.members| => (p.members[k].name, p.members[k].ty)),
      "Partial" + p.name,
      seq(|p.partialMembers|, k requires 0 <= k < |p.partialMembers| =>
        PartialField(p.partialMembers[k].name, "Option<" + p.partialMembers[k].ty + ">", p.partialMembers[k].serdeName)),
      seq(|p.partialMembers|, k requires 0 <= k < |p.partialMembers| => p.partialMembers[k].name),
      GetKeys(p.partialMembers))
  }

  /** End to end: the keys the macro generates are the bracketed wire names, one per field, in order. */
  lemma KeysAreWireNames(name: string, ds: seq<FieldDecl>, trailingComma: bool)
    ensures var r := ParseInput(InputTokens(name, ds, trailingComma));
      && r.Ok?
      && Expand(r.value).keys == seq(|ds|, k requires 0 <= k < |ds| => ds[k].wire)
      && Expand(r.value).partialName == "Partial" + name
  {
    ParseInputRoundTrip(name, ds, trailingComma);
  }
}

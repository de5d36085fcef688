/** Parsing `/applist`: splitting the body at each <App> and reading a title and an id out of every block. */
module AppList {
  import opened Wrappers
  import opened Text

  datatype HostApp = HostApp(id: nat, title: string)

  const SEPARATOR := "<App>"

  /** `split(sep)` on what follows the first separator. */
  function SplitRest(s: string): (parts: seq<string>)
    ensures |parts| >= 1
    decreases |s|
  {
    match Find(s, SEPARATOR)
    case None => [s]
    case Some(i) =>
      FindIsFirst(s, SEPARATOR);
      [s[..i]] + SplitRest(s[i + |SEPARATOR|..])
  }

  /** `body.split("<App>").skip(1)` */
  function Blocks(body: string): seq<string> {
    match Find(body, SEPARATOR)
    case None => []
    case Some(i) =>
      FindIsFirst(body, SEPARATOR);
      SplitRest(body[i + |SEPARATOR|..])
  }

  function ReadDigits(s: string, acc: nat): Option<nat> {
    if s == "" then Some(acc)
    else if '0' <= s[0] <= '9' then ReadDigits(s[1..], 10 * acc + (s[0] as int - '0' as int))
    else None
  }

  /** `u32::from_str`: an optional `+`, at least one digit, no overflow. */
  function ParseU32(s: string): (r: Option<nat>) {
    var digits := if s != "" && s[0] == '+' then s[1..] else s;
    if digits == "" then None
    else match ReadDigits(digits, 0)
      case None => None
      case Some(v) => if v < 0x1_0000_0000 then Some(v) else None
  }

  /** The decimal value of a digit string, digit by digit. */
  function ValueOf(digits: string): nat
    requires Digits(digits)
  {
    if digits == "" then 0
    else 10 * ValueOf(digits[..|digits| - 1]) + (digits[|digits| - 1] as int - '0' as int)
  }

  predicate Digits(s: string) { forall i :: 0 <= i < |s| ==> '0' <= s[i] <= '9' }

  /** What a 32-bit number may look like: digits, at least one, and perhaps a `+` in front. */
  predicate IsU32(s: string, n: nat) {
    var digits := if s != "" && s[0] == '+' then s[1..] else s;
    digits != "" && Digits(digits) && ValueOf(digits) == n < 4_294_967_296
  }

  lemma {:induction false} ReadDigitsExactly(s: string)
    ensures ReadDigits(s, 0).Some? <==> Digits(s)
    ensures Digits(s) ==> ReadDigits(s, 0) == Some(ValueOf(s))
  {
    if s == "" {
    } else {
      var front, c := s[..|s| - 1], s[|s| - 1];
      assert s == front + [c];
      ReadDigitsExactly(front);
      ReadDigitsMore(front, c, 0);
    }
  }

  lemma {:induction false} ReadDigitsMore(s: string, c: char, acc: nat)
    ensures ReadDigits(s + [c], acc)
         == if ReadDigits(s, acc).Some? && '0' <= c <= '9'
            then Some(10 * ReadDigits(s, acc).value + (c as int - '0' as int)) else None
  {
    if s == "" {
      assert s + [c] == [c] && [c][1..] == "";
    } else {
      assert (s + [c])[1..] == s[1..] + [c];
      if '0' <= s[0] <= '9' { ReadDigitsMore(s[1..], c, 10 * acc + (s[0] as int - '0' as int)); }
    }
  }

  /** `parse::<u32>` accepts exactly those, with that value. */
  lemma ParseU32Exactly(s: string, n: nat)
    ensures ParseU32(s) == Some(n) <==> IsU32(s, n)
  {
    ReadDigitsExactly(if s != "" && s[0] == '+' then s[1..] else s);
  }

  /** The closure given to `filter_map`. */
  function ParseBlock(block: string): Option<HostApp> {
    match XmlTag(block, "AppTitle")
    case None => None
    case Some(title) =>
      match XmlTag(block, "ID")
      case None => None
      case Some(id) =>
        match ParseU32(Trim(id))
        case None => None
        case Some(n) => Some(HostApp(n, title))
  }

  /** A block gives an app exactly if it has a title element and an id element whose trimmed text is a 32-bit number. */
  lemma BlockExactly(block: string, app: HostApp)
    ensures ParseBlock(block) == Some(app)
       <==> && XmlTag(block, "AppTitle") == Some(app.title)
            && XmlTag(block, "ID").Some? && IsU32(Trim(XmlTag(block, "ID").value), app.id)
  {
    if XmlTag(block, "ID").Some? { ParseU32Exactly(Trim(XmlTag(block, "ID").value), app.id); }
  }

  lemma TagTexts()
    ensures "<" + "AppTitle" + ">" == "<AppTitle>" && "</" + "AppTitle" + ">" == "</AppTitle>"
    ensures "<" + "ID" + ">" == "<ID>" && "</" + "ID" + ">" == "</ID>"
  {
  }

  /** So one without either element, or with an id that is no such number, gives none. */
  lemma BlockGivesNone(block: string)
    requires || !Contains(block, "<AppTitle>") || !Contains(block, "</AppTitle>")
             || !Contains(block, "<ID>") || !Contains(block, "</ID>")
             || (XmlTag(block, "ID").Some? && forall n: nat :: !IsU32(Trim(XmlTag(block, "ID").value), n))
    ensures ParseBlock(block) == None
  {
    XmlTagNeedsBoth(block, "AppTitle");
    XmlTagNeedsBoth(block, "ID");
    TagTexts();
    if ParseBlock(block).Some? { BlockExactly(block, ParseBlock(block).value); }
  }

  function FilterMap(blocks: seq<string>): seq<HostApp> {
    if blocks == [] then []
    else match ParseBlock(blocks[0])
      case None => FilterMap(blocks[1..])
      case Some(app) => [app] + FilterMap(blocks[1..])
  }

  /** The parsing half of `app_list`. */
  function ParseAppList(body: string): seq<HostApp> { FilterMap(Blocks(body)) }

  // ---- what it reads back ----

  function Join(blocks: seq<string>): string {
    if blocks == [] then "" else SEPARATOR + blocks[0] + Join(blocks[1..])
  }

  ghost predicate SeparatorFree(s: string) { !Contains(s, SEPARATOR) }

  ghost predicate AllFree(blocks: seq<string>) { forall i :: 0 <= i < |blocks| ==> SeparatorFree(blocks[i]) }

  /** Where the first separator of a joined body is, and what follows it. */
  lemma FirstBlock(pre: string, blocks: seq<string>)
    requires SeparatorFree(pre) && blocks != []
    ensures Find(pre + Join(blocks), SEPARATOR) == Some(|pre|)
    ensures (pre + Join(blocks))[..|pre|] == pre
    ensures (pre + Join(blocks))[|pre| + |SEPARATOR|..] == blocks[0] + Join(blocks[1..])
  {
    var rest := blocks[0] + Join(blocks[1..]);
    var body := pre + SEPARATOR + rest;
    FirstAfter(pre, SEPARATOR, rest);
    assert pre + Join(blocks) == body by { assert Join(blocks) == SEPARATOR + rest; }
    assert body[|pre| + |SEPARATOR|..] == rest;
  }

  lemma {:induction false} SplitRestJoin(block: string, blocks: seq<string>)
    requires SeparatorFree(block) && AllFree(blocks)
    ensures SplitRest(block + Join(blocks)) == [block] + blocks
    decreases |blocks|
  {
    if blocks == [] {
      assert block + Join(blocks) == block;
      FindIsFirst(block, SEPARATOR);
    } else {
      FirstBlock(block, blocks);
      SplitRestJoin(blocks[0], blocks[1..]);
    }
  }

  /** Splitting recovers the blocks of any body, after any prefix with no <App> in it. */
  lemma BlocksOfJoin(prefix: string, blocks: seq<string>)
    requires SeparatorFree(prefix) && AllFree(blocks)
    ensures Blocks(prefix + Join(blocks)) == blocks
  {
    if blocks == [] {
      assert prefix + Join(blocks) == prefix;
      FindIsFirst(prefix, SEPARATOR);
    } else {
      FirstBlock(prefix, blocks);
      SplitRestJoin(blocks[0], blocks[1..]);
    }
  }

  lemma {:induction false} FilterMapAppend(a: seq<string>, b: seq<string>)
    ensures FilterMap(a + b) == FilterMap(a) + FilterMap(b)
  {
    if a == [] {
      assert a + b == b;
    } else {
      assert (a + b)[1..] == a[1..] + b;
      FilterMapAppend(a[1..], b);
    }
  }

  /** What one block adds to the list. */
  function Contribution(block: string): seq<HostApp> {
    match ParseBlock(block) case None => [] case Some(app) => [app]
  }

  lemma FilterMapOne(before: seq<string>, block: string, after: seq<string>)
    ensures FilterMap(before + [block] + after) == FilterMap(before) + Contribution(block) + FilterMap(after)
  {
    FilterMapAppend(before + [block], after);
    FilterMapAppend(before, [block]);
    assert [block][1..] == [];
    assert FilterMap([block]) == Contribution(block);
  }

  /**
   Isolation: a block that does not parse is dropped, and one that does contributes itself; either
   way the blocks before and after it parse to what they parse to on their own.
   */
  lemma BlocksAreIndependent(prefix: string, before: seq<string>, block: string, after: seq<string>)
    requires SeparatorFree(prefix) && AllFree(before) && SeparatorFree(block) && AllFree(after)
    ensures ParseAppList(prefix + Join(before + [block] + after))
         == ParseAppList(prefix + Join(before)) + Contribution(block) + ParseAppList(prefix + Join(after))
  {
    BlocksOfJoin(prefix, before + [block] + after);
    BlocksOfJoin(prefix, before);
    BlocksOfJoin(prefix, after);
    FilterMapOne(before, block, after);
  }

  // ---- the round trip ----

  function Decimal(n: nat): (s: string)
    ensures s != ""
  {
    var d := [('0' as int + n % 10) as char];
    if n < 10 then d else Decimal(n / 10) + d
  }

  lemma {:induction false} DecimalIsDigits(n: nat)
    ensures Digits(Decimal(n))
  {
    if n < 10 {
    } else {
      DecimalIsDigits(n / 10);
    }
  }

  lemma {:induction false} ReadDigitsAppend(s: string, c: char, acc: nat)
    requires Digits(s) && '0' <= c <= '9'
    ensures ReadDigits(s, acc).Some?
    ensures ReadDigits(s + [c], acc) == Some(10 * ReadDigits(s, acc).value + (c as int - '0' as int))
  {
    if s == "" {
      assert s + [c] == [c] && [c][1..] == "";
    } else {
      assert (s + [c])[1..] == s[1..] + [c];
      ReadDigitsAppend(s[1..], c, 10 * acc + (s[0] as int - '0' as int));
    }
  }

  lemma {:induction false} ReadsDecimal(n: nat)
    ensures ReadDigits(Decimal(n), 0) == Some(n)
  {
    var c := ('0' as int + n % 10) as char;
    if n < 10 {
      assert [c][1..] == "";
    } else {
      ReadsDecimal(n / 10);
      DecimalIsDigits(n / 10);
      ReadDigitsAppend(Decimal(n / 10), c, 0);
    }
  }

  /** A block with a title and an id element in it, and anything else around them. */
  function Render(app: HostApp, a: string, b: string, c: string): string {
    a + Open("AppTitle") + app.title + Close("AppTitle") + b + Open("ID") + Decimal(app.id) + Close("ID") + c
  }

  /** Such a block reads back as its app when the elements are the first of their kind in it. */
  lemma BlockReads(app: HostApp, a: string, b: string, c: string)
    requires app.id < 0x1_0000_0000
    requires !Contains(a, Open("AppTitle")) && !Contains(app.title, Close("AppTitle"))
    requires !Contains(a + Open("AppTitle") + app.title + Close("AppTitle") + b, Open("ID"))
    ensures ParseBlock(Render(app, a, b, c)) == Some(app)
  {
    var t, i := "AppTitle", "ID";
    var digits := Decimal(app.id);
    var tail := b + Open(i) + digits + Close(i) + c;
    XmlTagReads(a, t, app.title, tail);
    assert Render(app, a, b, c) == a + Open(t) + app.title + Close(t) + tail;
    DecimalIsDigits(app.id);
    ReadsDecimal(app.id);
    NoAngle(digits, Close(i));
    XmlTagReads(a + Open(t) + app.title + Close(t) + b, i, digits, c);
    TrimIdle(digits);
  }

  /** The plain rendering: nothing but the two elements. */
  function Plain(app: HostApp): string { Render(app, "", "", "") }

  /** No piece of a plain rendering can hold <App>, and none before the id element can hold <ID>. */
  lemma PlainPieces(app: HostApp)
    requires '<' !in app.title
    ensures var p1, p2 := Open("AppTitle") + app.title, Close("AppTitle");
            var p3, p4 := Open("ID") + Decimal(app.id), Close("ID");
            && !Contains(p1, SEPARATOR) && !Contains(p2, SEPARATOR)
            && !Contains(p3, SEPARATOR) && !Contains(p4, SEPARATOR)
            && !Contains(p1, Open("ID")) && !Contains(p2, Open("ID"))
  {
    var p1, p2 := Open("AppTitle") + app.title, Close("AppTitle");
    var p3, p4 := Open("ID") + Decimal(app.id), Close("ID");
    DecimalIsDigits(app.id);
    assert p1[4] == 'T' && p2[1] == '/' && p3[1] == 'I' && p4[1] == '/';
    assert p1[1] == 'A' && SEPARATOR[4] == '>' && SEPARATOR[1] == 'A' && Open("ID")[1] == 'I';
    OneAngle(p1, SEPARATOR);
    OneAngle(p2, SEPARATOR);
    OneAngle(p3, SEPARATOR);
    OneAngle(p4, SEPARATOR);
    OneAngle(p1, Open("ID"));
    OneAngle(p2, Open("ID"));
  }

  lemma PlainIsTame(app: HostApp)
    requires '<' !in app.title && app.id < 0x1_0000_0000
    ensures SeparatorFree(Plain(app)) && ParseBlock(Plain(app)) == Some(app)
  {
    var p1, p2 := Open("AppTitle") + app.title, Close("AppTitle");
    var p3, p4 := Open("ID") + Decimal(app.id), Close("ID");
    PlainPieces(app);
    NoStraddle(p1, p2, SEPARATOR);
    NoStraddle(p1 + p2, p3, SEPARATOR);
    NoStraddle(p1 + p2 + p3, p4, SEPARATOR);
    assert Plain(app) == p1 + p2 + p3 + p4;
    NoStraddle(p1, p2, Open("ID"));
    assert "" + Open("AppTitle") + app.title + Close("AppTitle") + "" == p1 + p2;
    NoAngle("", Open("AppTitle"));
    NoAngle(app.title, Close("AppTitle"));
    BlockReads(app, "", "", "");
  }

  function PlainBlocks(apps: seq<HostApp>): (blocks: seq<string>)
    ensures |blocks| == |apps|
  {
    seq(|apps|, i requires 0 <= i < |apps| => Plain(apps[i]))
  }

  lemma {:induction false} FilterMapPlain(apps: seq<HostApp>)
    requires forall i :: 0 <= i < |apps| ==> '<' !in apps[i].title && apps[i].id < 0x1_0000_0000
    ensures FilterMap(PlainBlocks(apps)) == apps
  {
    if apps == [] {
    } else {
      PlainIsTame(apps[0]);
      assert PlainBlocks(apps)[1..] == PlainBlocks(apps[1..]);
      FilterMapPlain(apps[1..]);
      assert apps == [apps[0]] + apps[1..];
    }
  }

  /** Round trip: any list of apps, rendered after any prefix with no <App> in it, parses back in order. */
  lemma AppListRoundTrip(prefix: string, apps: seq<HostApp>)
    requires SeparatorFree(prefix)
    requires forall i :: 0 <= i < |apps| ==> '<' !in apps[i].title && apps[i].id < 0x1_0000_0000
    ensures ParseAppList(prefix + Join(PlainBlocks(apps))) == apps
  {
    var blocks := PlainBlocks(apps);
    forall i | 0 <= i < |blocks|
      ensures SeparatorFree(blocks[i])
    {
      PlainIsTame(apps[i]);
    }
    BlocksOfJoin(prefix, blocks);
    FilterMapPlain(apps);
  }

  /** The list as text, element by element. */
  function ListText(apps: seq<HostApp>): string {
    if apps == [] then ""
    else
      "<App>"
      + ("<AppTitle>" + apps[0].title + "</AppTitle>" + "<ID>" + Decimal(apps[0].id) + "</ID>")
      + ListText(apps[1..])
  }

  lemma {:induction false} ListTextIsJoin(apps: seq<HostApp>)
    ensures Join(PlainBlocks(apps)) == ListText(apps)
  {
    if apps == [] {
    } else {
      var blocks := PlainBlocks(apps);
      assert blocks[1..] == PlainBlocks(apps[1..]);
      ListTextIsJoin(apps[1..]);
      PlainText(apps[0]);
    }
  }

  lemma PlainText(app: HostApp)
    ensures Plain(app) == "<AppTitle>" + app.title + "</AppTitle>" + "<ID>" + Decimal(app.id) + "</ID>"
  {
  }

  /** The round trip, in the characters of the markup. */
  lemma AppListTextRoundTrip(prefix: string, apps: seq<HostApp>)
    requires !Contains(prefix, "<App>")
    requires forall i :: 0 <= i < |apps| ==> '<' !in apps[i].title && apps[i].id < 4_294_967_296
    ensures ParseAppList(prefix + ListText(apps)) == apps
  {
    AppListRoundTrip(prefix, apps);
    ListTextIsJoin(apps);
  }
}

/** Comment keys: removed from a document, or dropped as it is read. */
module Comments {
  import opened Prelude

  datatype Entry = Entry(key: string, value: Doc)

  /** A document; an object keeps its entries in the order they are spelled. */
  datatype Doc = Scalar(text: string) | Array(items: seq<Doc>) | Object(entries: seq<Entry>)

  predicate IsComment(key: string) {
    key != [] && key[0] == '_'
  }

  // ----- on a document in hand -----

  function Stripped(d: Doc): Doc {
    match d
    case Scalar(_) => d
    case Array(items) => Array(StrippedItems(items))
    case Object(entries) => Object(StrippedEntries(entries))
  }

  function StrippedItems(items: seq<Doc>): seq<Doc> {
    if items == [] then [] else [Stripped(items[0])] + StrippedItems(items[1..])
  }

  function StrippedEntries(entries: seq<Entry>): seq<Entry> {
    if entries == [] then []
    else if IsComment(entries[0].key) then StrippedEntries(entries[1..])
    else [Entry(entries[0].key, Stripped(entries[0].value))] + StrippedEntries(entries[1..])
  }

  function Kept(entries: seq<Entry>): (kept: seq<Entry>)
    ensures forall e | e in kept :: e in entries && !IsComment(e.key)
  {
    if entries == [] then [] else Keep(entries[0]) + Kept(entries[1..])
  }

  /** An entry, unless it is a comment. */
  function Keep(e: Entry): seq<Entry> {
    if IsComment(e.key) then [] else [e]
  }

  lemma {:induction false} KeptAppend(a: seq<Entry>, e: Entry)
    ensures Kept(a + [e]) == Kept(a) + Keep(e)
  {
    hide Keep;
    if a == [] {
      assert a + [e] == [e] && [e][1..] == [];
      assert Keep(e) + [] == Keep(e) && [] + Keep(e) == Keep(e);
    } else {
      assert (a + [e])[1..] == a[1..] + [e] && (a + [e])[0] == a[0];
      KeptAppend(a[1..], e);
      KeepFirst(Keep(a[0]), Kept(a[1..]), Keep(e));
    }
  }

  lemma KeepFirst(first: seq<Entry>, rest: seq<Entry>, last: seq<Entry>)
    ensures first + (rest + last) == (first + rest) + last
  {
  }

  function StrippedEntry(e: Entry): Entry {
    Entry(e.key, Stripped(e.value))
  }

  lemma {:induction false} StrippedKept(entries: seq<Entry>)
    ensures |StrippedEntries(entries)| == |Kept(entries)|
    ensures forall i :: 0 <= i < |Kept(entries)| ==> StrippedEntries(entries)[i] == StrippedEntry(Kept(entries)[i])
  {
    if entries != [] {
      StrippedKept(entries[1..]);
      StrippedStep(entries);
      hide Stripped, StrippedEntry, IsComment, Kept, StrippedEntries;
      var kept, stripped := Kept(entries[1..]), StrippedEntries(entries[1..]);
      if !IsComment(entries[0].key) {
        forall i | 0 <= i < |kept| + 1
          ensures ([StrippedEntry(entries[0])] + stripped)[i] == StrippedEntry(([entries[0]] + kept)[i])
        {
          assert i > 0 ==> ([entries[0]] + kept)[i] == kept[i - 1];
        }
      }
    }
  }

  lemma StrippedStep(entries: seq<Entry>)
    requires entries != []
    ensures var kept, stripped := Kept(entries[1..]), StrippedEntries(entries[1..]);
      if IsComment(entries[0].key) then Kept(entries) == kept && StrippedEntries(entries) == stripped
      else Kept(entries) == [entries[0]] + kept && StrippedEntries(entries) == [StrippedEntry(entries[0])] + stripped
  {
    hide Stripped;
  }

  lemma {:induction false} StrippedEach(items: seq<Doc>)
    ensures |StrippedItems(items)| == |items|
    ensures forall i :: 0 <= i < |items| ==> StrippedItems(items)[i] == Stripped(items[i])
  {
    if items != [] {
      StrippedEach(items[1..]);
    }
  }

  /** Comments are retained out, then each child left is stripped. */
  method Strip(value: Doc) returns (r: Doc)
    ensures r == Stripped(value)
    decreases value
  {
    match value {
      case Object(entries) =>
        var kept := Retain(entries);
        StrippedKept(entries);
        for i := 0 to |kept|
          invariant |kept| == |Kept(entries)|
          invariant forall k :: 0 <= k < i ==> kept[k] == StrippedEntries(entries)[k]
          invariant forall k :: i <= k < |kept| ==> kept[k] == Kept(entries)[k]
        {
          assert kept[i] in Kept(entries);
          var j :| 0 <= j < |entries| && entries[j] == kept[i];
          var child := Strip(entries[j].value);
          kept := kept[i := kept[i].(value := child)];
        }
        assert kept == StrippedEntries(entries);
        r := Object(kept);
      case Array(items) =>
        var list := items;
        StrippedEach(items);
        for i := 0 to |items|
          invariant |list| == |items|
          invariant forall k :: 0 <= k < i ==> list[k] == Stripped(items[k])
          invariant forall k :: i <= k < |items| ==> list[k] == items[k]
        {
          var child := Strip(items[i]);
          list := list[i := child];
        }
        assert list == StrippedItems(items);
        r := Array(list);
      case Scalar(_) =>
        r := value;
    }
  }

  method Retain(entries: seq<Entry>) returns (kept: seq<Entry>)
    ensures kept == Kept(entries)
  {
    kept := [];
    for i := 0 to |entries|
      invariant kept == Kept(entries[..i])
    {
      assert entries[..i + 1] == entries[..i] + [entries[i]];
      KeptAppend(entries[..i], entries[i]);
      if !IsComment(entries[i].key) {
        kept := kept + [entries[i]];
      }
    }
    assert entries[..|entries|] == entries;
  }

  // ----- what stripping leaves -----

  ghost predicate Clean(d: Doc) {
    match d
    case Scalar(_) => true
    case Array(items) => forall i :: 0 <= i < |items| ==> Clean(items[i])
    case Object(entries) => forall i :: 0 <= i < |entries| ==> !("_" <= entries[i].key) && Clean(entries[i].value)
  }

  /** No comment key survives, at any depth. */
  lemma {:induction false} StrippedClean(d: Doc)
    ensures Clean(Stripped(d))
    decreases d
  {
    match d
    case Scalar(_) =>
    case Array(items) =>
      StrippedEach(items);
      forall i | 0 <= i < |items|
        ensures Clean(Stripped(items[i]))
      {
        StrippedClean(items[i]);
      }
    case Object(entries) =>
      StrippedKept(entries);
      forall i | 0 <= i < |Kept(entries)|
        ensures !IsComment(Kept(entries)[i].key) && Clean(Stripped(Kept(entries)[i].value))
      {
        assert Kept(entries)[i] in Kept(entries);
        var j :| 0 <= j < |entries| && entries[j] == Kept(entries)[i];
        StrippedClean(entries[j].value);
      }
  }

  /** Stripping changes nothing exactly when there is no comment to remove. */
  lemma {:induction false} UnchangedExactly(d: Doc)
    ensures Stripped(d) == d <==> Clean(d)
    decreases d
  {
    if Stripped(d) == d {
      StrippedClean(d);
    }
    if Clean(d) {
      match d
      case Scalar(_) =>
      case Array(items) =>
        StrippedEach(items);
        forall i | 0 <= i < |items|
          ensures Stripped(items[i]) == items[i]
        {
          UnchangedExactly(items[i]);
        }
        assert StrippedItems(items) == items;
      case Object(entries) =>
        CleanKept(entries);
        StrippedKept(entries);
        forall i | 0 <= i < |entries|
          ensures StrippedEntries(entries)[i] == entries[i]
        {
          UnchangedExactly(entries[i].value);
        }
        assert StrippedEntries(entries) == entries;
    }
  }

  lemma {:induction false} CleanKept(entries: seq<Entry>)
    requires forall i :: 0 <= i < |entries| ==> !IsComment(entries[i].key)
    ensures Kept(entries) == entries
  {
    if entries != [] {
      CleanKept(entries[1..]);
    }
  }

  /** Stripping again changes nothing. */
  lemma StripTwice(d: Doc)
    ensures Stripped(Stripped(d)) == Stripped(d)
  {
    StrippedClean(d);
    UnchangedExactly(Stripped(d));
  }

  // ----- dropped as they are read -----

  /** A document's text as its parser meets it. */
  datatype Token = Text(text: string) | ArrayStart | ArrayEnd | ObjectStart | ObjectEnd | Key(key: string)

  /** The next key of an object, comments and their values passed over if `filter`; none at the object's end. */
  function NextKey(tokens: seq<Token>, filter: bool): (r: Option<(Option<string>, seq<Token>)>)
    ensures r.Some? ==> |r.value.1| < |tokens|
    decreases |tokens|, 0
  {
    if tokens == [] then None
    else if tokens[0] == ObjectEnd then Some((None, tokens[1..]))
    else if !tokens[0].Key? then None
    else if filter && IsComment(tokens[0].key) then
      match Read(tokens[1..], false)
      case None => None
      case Some((_, rest)) => NextKey(rest, filter)
    else Some((Some(tokens[0].key), tokens[1..]))
  }

  function ReadEntries(tokens: seq<Token>, filter: bool): (r: Option<(seq<Entry>, seq<Token>)>)
    ensures r.Some? ==> |r.value.1| < |tokens|
    decreases |tokens|, 1
  {
    match NextKey(tokens, filter)
    case None => None
    case Some((None, rest)) => Some(([], rest))
    case Some((Some(key), rest)) =>
      match Read(rest, filter)
      case None => None
      case Some((value, after)) =>
        match ReadEntries(after, filter)
        case None => None
        case Some((more, end)) => Some(([Entry(key, value)] + more, end))
  }

  function ReadItems(tokens: seq<Token>, filter: bool): (r: Option<(seq<Doc>, seq<Token>)>)
    ensures r.Some? ==> |r.value.1| < |tokens|
    decreases |tokens|, 1
  {
    if tokens == [] then None
    else if tokens[0] == ArrayEnd then Some(([], tokens[1..]))
    else
      match Read(tokens, filter)
      case None => None
      case Some((item, after)) =>
        match ReadItems(after, filter)
        case None => None
        case Some((more, end)) => Some(([item] + more, end))
  }

  /** One value read off the tokens, and the tokens left. */
  function Read(tokens: seq<Token>, filter: bool): (r: Option<(Doc, seq<Token>)>)
    ensures r.Some? ==> |r.value.1| < |tokens|
    decreases |tokens|, 0
  {
    if tokens == [] then None else
      match tokens[0]
      case Text(text) => Some((Scalar(text), tokens[1..]))
      case ArrayStart =>
        (match ReadItems(tokens[1..], filter)
         case None => None
         case Some((items, rest)) => Some((Array(items), rest)))
      case ObjectStart =>
        (match ReadEntries(tokens[1..], filter)
         case None => None
         case Some((entries, rest)) => Some((Object(entries), rest)))
      case _ => None
  }

  function StripRead(r: Option<(Doc, seq<Token>)>): Option<(Doc, seq<Token>)> {
    if r.Some? then Some((Stripped(r.value.0), r.value.1)) else None
  }

  function StripItems(r: Option<(seq<Doc>, seq<Token>)>): Option<(seq<Doc>, seq<Token>)> {
    if r.Some? then Some((StrippedItems(r.value.0), r.value.1)) else None
  }

  function StripEntries(r: Option<(seq<Entry>, seq<Token>)>): Option<(seq<Entry>, seq<Token>)> {
    if r.Some? then Some((StrippedEntries(r.value.0), r.value.1)) else None
  }

  /** Reading through the filter is reading plainly and stripping, whatever the tokens. */
  lemma {:induction false} FilteredIsStripped(tokens: seq<Token>)
    ensures Read(tokens, true) == StripRead(Read(tokens, false))
    decreases |tokens|, 0
  {
    if tokens != [] {
      match tokens[0]
      case ArrayStart => FilteredItems(tokens[1..]);
      case ObjectStart => FilteredEntries(tokens[1..]);
      case _ =>
    }
  }

  lemma {:induction false} FilteredItems(tokens: seq<Token>)
    ensures ReadItems(tokens, true) == StripItems(ReadItems(tokens, false))
    decreases |tokens|, 1
  {
    if tokens != [] && tokens[0] != ArrayEnd {
      FilteredIsStripped(tokens);
      match Read(tokens, false)
      case None =>
      case Some((item, after)) =>
        FilteredItems(after);
        hide Read, ReadItems, Stripped, StrippedItems;
        FirstItem(item, ReadItems(after, false));
        ItemsStep(tokens, true);
        ItemsStep(tokens, false);
    }
  }

  lemma ItemsStep(tokens: seq<Token>, filter: bool)
    requires tokens != [] && tokens[0] != ArrayEnd && Read(tokens, filter).Some?
    ensures var first := Read(tokens, filter).value;
      ReadItems(tokens, filter) == if ReadItems(first.1, filter).Some?
                                   then Some(([first.0] + ReadItems(first.1, filter).value.0, ReadItems(first.1, filter).value.1))
                                   else None
  {
  }

  lemma FirstItem(item: Doc, r: Option<(seq<Doc>, seq<Token>)>)
    ensures r.Some? ==> StrippedItems([item] + r.value.0) == [Stripped(item)] + StrippedItems(r.value.0)
  {
    if r.Some? {
      assert ([item] + r.value.0)[1..] == r.value.0;
    }
  }

  lemma {:induction false} FilteredEntries(tokens: seq<Token>)
    ensures ReadEntries(tokens, true) == StripEntries(ReadEntries(tokens, false))
    decreases |tokens|, 1
  {
    if tokens != [] && tokens[0].Key? {
      var key := tokens[0].key;
      FilteredIsStripped(tokens[1..]);
      match Read(tokens[1..], false)
      case None =>
        EntriesFail(tokens);
      case Some((value, after)) =>
        FilteredEntries(after);
        hide Read, ReadEntries, Stripped, StrippedEntries;
        FirstEntry(Entry(key, value), ReadEntries(after, false));
        EntriesStep(tokens, false);
        if IsComment(key) {
          CommentStep(tokens);
        } else {
          EntriesStep(tokens, true);
        }
    }
  }

  lemma EntriesFail(tokens: seq<Token>)
    requires tokens != [] && tokens[0].Key? && Read(tokens[1..], false).None? && Read(tokens[1..], true).None?
    ensures ReadEntries(tokens, true).None? && ReadEntries(tokens, false).None?
  {
  }

  lemma EntriesStep(tokens: seq<Token>, filter: bool)
    requires tokens != [] && tokens[0].Key? && !(filter && IsComment(tokens[0].key)) && Read(tokens[1..], filter).Some?
    ensures var value := Read(tokens[1..], filter).value;
      ReadEntries(tokens, filter) == if ReadEntries(value.1, filter).Some?
        then Some(([Entry(tokens[0].key, value.0)] + ReadEntries(value.1, filter).value.0, ReadEntries(value.1, filter).value.1))
        else None
  {
  }

  lemma CommentStep(tokens: seq<Token>)
    requires tokens != [] && tokens[0].Key? && IsComment(tokens[0].key) && Read(tokens[1..], false).Some?
    ensures ReadEntries(tokens, true) == ReadEntries(Read(tokens[1..], false).value.1, true)
  {
  }

  lemma FirstEntry(e: Entry, r: Option<(seq<Entry>, seq<Token>)>)
    ensures r.Some? ==>
      StrippedEntries([e] + r.value.0)
      == (if IsComment(e.key) then [] else [Entry(e.key, Stripped(e.value))]) + StrippedEntries(r.value.0)
  {
    if r.Some? {
      assert ([e] + r.value.0)[1..] == r.value.0;
    }
  }

  // ----- documents as tokens -----

  function TokensOf(d: Doc): seq<Token> {
    match d
    case Scalar(text) => [Text(text)]
    case Array(items) => [ArrayStart] + ItemTokens(items) + [ArrayEnd]
    case Object(entries) => [ObjectStart] + EntryTokens(entries) + [ObjectEnd]
  }

  function ItemTokens(items: seq<Doc>): seq<Token> {
    if items == [] then [] else TokensOf(items[0]) + ItemTokens(items[1..])
  }

  function EntryTokens(entries: seq<Entry>): seq<Token> {
    if entries == [] then [] else [Key(entries[0].key)] + TokensOf(entries[0].value) + EntryTokens(entries[1..])
  }

  lemma {:induction false} PlainReads(d: Doc, rest: seq<Token>)
    ensures Read(TokensOf(d) + rest, false) == Some((d, rest))
    decreases d
  {
    var tokens := TokensOf(d) + rest;
    match d
    case Scalar(text) =>
      assert tokens[1..] == rest;
    case Array(items) =>
      ItemsRead(items, rest);
      assert tokens[1..] == ItemTokens(items) + [ArrayEnd] + rest;
    case Object(entries) =>
      EntriesRead(entries, rest);
      assert tokens[1..] == EntryTokens(entries) + [ObjectEnd] + rest;
  }

  lemma {:induction false} ItemsRead(items: seq<Doc>, rest: seq<Token>)
    ensures ReadItems(ItemTokens(items) + [ArrayEnd] + rest, false) == Some((items, rest))
    decreases items
  {
    var tokens := ItemTokens(items) + [ArrayEnd] + rest;
    if items == [] {
      assert tokens[0] == ArrayEnd && tokens[1..] == rest;
    } else {
      var more := ItemTokens(items[1..]) + [ArrayEnd] + rest;
      assert tokens == TokensOf(items[0]) + more;
      StartsValue(items[0], more);
      PlainReads(items[0], more);
      ItemsRead(items[1..], rest);
      assert [items[0]] + items[1..] == items;
    }
  }

  lemma StartsValue(d: Doc, more: seq<Token>)
    ensures (TokensOf(d) + more)[0] != ArrayEnd
  {
  }

  lemma {:induction false} EntriesRead(entries: seq<Entry>, rest: seq<Token>)
    ensures ReadEntries(EntryTokens(entries) + [ObjectEnd] + rest, false) == Some((entries, rest))
    decreases entries
  {
    var tokens := EntryTokens(entries) + [ObjectEnd] + rest;
    if entries == [] {
      assert tokens[0] == ObjectEnd && tokens[1..] == rest;
    } else {
      var more := EntryTokens(entries[1..]) + [ObjectEnd] + rest;
      assert tokens[0] == Key(entries[0].key) && tokens[1..] == TokensOf(entries[0].value) + more;
      PlainReads(entries[0].value, more);
      EntriesRead(entries[1..], rest);
      assert [entries[0]] + entries[1..] == entries;
    }
  }

  /** A document read through the filter is the document stripped, in the same order, and what follows is left alone. */
  lemma {:induction false} FilterReadsStripped(d: Doc, rest: seq<Token>)
    ensures Read(TokensOf(d) + rest, true) == Some((Stripped(d), rest))
  {
    PlainReads(d, rest);
    FilteredIsStripped(TokensOf(d) + rest);
  }

  // ----- the reader as it runs -----

  class Reader {
    const tokens: seq<Token>
    var at: nat

    constructor (tokens: seq<Token>)
      ensures this.tokens == tokens && at == 0
    {
      this.tokens, at := tokens, 0;
    }

    ghost predicate Valid()
      reads this
    {
      at <= |tokens|
    }

    ghost function Left(): seq<Token>
      reads this
      requires Valid()
    {
      tokens[at..]
    }

    /** The next key, comments and their values passed over. */
    method NextKeySeed(filter: bool) returns (r: Option<Option<string>>)
      requires Valid()
      modifies this
      ensures Valid() && at >= old(at)
      ensures r.Some? <==> NextKey(old(Left()), filter).Some?
      ensures r.Some? ==> NextKey(old(Left()), filter) == Some((r.value, Left())) && at > old(at)
      decreases |tokens| - at, 0
    {
      while true
        invariant old(at) <= at <= |tokens|
        invariant NextKey(Left(), filter) == NextKey(old(Left()), filter)
        decreases |tokens| - at
      {
        if at == |tokens| {
          return None;
        }
        var token := tokens[at];
        assert Left()[0] == token && Left()[1..] == tokens[at + 1..];
        if token == ObjectEnd {
          at := at + 1;
          return Some(None);
        }
        if !token.Key? {
          return None;
        }
        at := at + 1;
        if filter && IsComment(token.key) {
          var skipped := ReadValue(false);
          if skipped.None? {
            return None;
          }
          continue;
        }
        return Some(Some(token.key));
      }
    }

    method ReadValue(filter: bool) returns (r: Option<Doc>)
      requires Valid()
      modifies this
      ensures Valid() && at >= old(at)
      ensures r.Some? <==> Read(old(Left()), filter).Some?
      ensures r.Some? ==> Read(old(Left()), filter) == Some((r.value, Left())) && at > old(at)
      decreases |tokens| - at, 1
    {
      if at == |tokens| {
        return None;
      }
      var token := tokens[at];
      assert Left()[0] == token && Left()[1..] == tokens[at + 1..];
      at := at + 1;
      match token {
        case Text(text) =>
          return Some(Scalar(text));
        case ArrayStart =>
          var items := ReadArray(filter);
          return if items.Some? then Some(Array(items.value)) else None;
        case ObjectStart =>
          var entries := ReadObject(filter);
          return if entries.Some? then Some(Object(entries.value)) else None;
        case _ =>
          return None;
      }
    }

    method ReadArray(filter: bool) returns (r: Option<seq<Doc>>)
      requires Valid()
      modifies this
      ensures Valid() && at >= old(at)
      ensures r.Some? <==> ReadItems(old(Left()), filter).Some?
      ensures r.Some? ==> ReadItems(old(Left()), filter) == Some((r.value, Left())) && at > old(at)
      decreases |tokens| - at, 2
    {
      hide Read, ReadItems;
      var items: seq<Doc> := [];
      NoneYet(ReadItems(Left(), filter), items);
      while true
        invariant old(at) <= at <= |tokens|
        invariant Gathered(items, ReadItems(Left(), filter)) == ReadItems(old(Left()), filter)
        decreases |tokens| - at
      {
        ItemsEnd(Left(), filter);
        if at == |tokens| {
          return None;
        }
        assert Left()[0] == tokens[at] && Left()[1..] == tokens[at + 1..];
        if tokens[at] == ArrayEnd {
          at := at + 1;
          NoneYet(Some(([], Left())), items);
          return Some(items);
        }
        ghost var before := Left();
        var item := ReadValue(filter);
        if item.None? {
          return None;
        }
        ItemsStep(before, filter);
        OneMore(items, item.value, ReadItems(Left(), filter));
        items := items + [item.value];
      }
    }

    method ReadObject(filter: bool) returns (r: Option<seq<Entry>>)
      requires Valid()
      modifies this
      ensures Valid() && at >= old(at)
      ensures r.Some? <==> ReadEntries(old(Left()), filter).Some?
      ensures r.Some? ==> ReadEntries(old(Left()), filter) == Some((r.value, Left())) && at > old(at)
      decreases |tokens| - at, 2
    {
      hide Read, NextKey, ReadEntries;
      var entries: seq<Entry> := [];
      NoneYet(ReadEntries(Left(), filter), entries);
      while true
        invariant old(at) <= at <= |tokens|
        invariant Gathered(entries, ReadEntries(Left(), filter)) == ReadEntries(old(Left()), filter)
        decreases |tokens| - at
      {
        KeyStep(Left(), filter);
        var key := NextKeySeed(filter);
        if key.None? {
          return None;
        }
        if key.value.None? {
          NoneYet(Some(([], Left())), entries);
          return Some(entries);
        }
        var value := ReadValue(filter);
        if value.None? {
          return None;
        }
        OneMore(entries, Entry(key.value.value, value.value), ReadEntries(Left(), filter));
        entries := entries + [Entry(key.value.value, value.value)];
      }
    }
  }

  ghost function Gathered<T>(done: seq<T>, rest: Option<(seq<T>, seq<Token>)>): Option<(seq<T>, seq<Token>)> {
    if rest.Some? then Some((done + rest.value.0, rest.value.1)) else None
  }

  lemma NoneYet<T>(rest: Option<(seq<T>, seq<Token>)>, done: seq<T>)
    ensures Gathered([], rest) == rest
    ensures rest.Some? && rest.value.0 == [] ==> Gathered(done, rest) == Some((done, rest.value.1))
  {
    if rest.Some? {
      assert [] + rest.value.0 == rest.value.0;
      assert rest.value.0 == [] ==> done + rest.value.0 == done;
    }
  }

  lemma OneMore<T>(done: seq<T>, item: T, rest: Option<(seq<T>, seq<Token>)>)
    ensures rest.Some? ==>
      Gathered(done, Some(([item] + rest.value.0, rest.value.1))) == Gathered(done + [item], rest)
  {
    if rest.Some? {
      assert done + ([item] + rest.value.0) == done + [item] + rest.value.0;
    }
  }

  lemma ItemsEnd(tokens: seq<Token>, filter: bool)
    ensures tokens == [] ==> ReadItems(tokens, filter).None?
    ensures tokens != [] && tokens[0] == ArrayEnd ==> ReadItems(tokens, filter) == Some(([], tokens[1..]))
    ensures tokens != [] && tokens[0] != ArrayEnd && Read(tokens, filter).None? ==> ReadItems(tokens, filter).None?
  {
  }

  lemma KeyStep(tokens: seq<Token>, filter: bool)
    ensures match NextKey(tokens, filter)
      case None => ReadEntries(tokens, filter).None?
      case Some((None, rest)) => ReadEntries(tokens, filter) == Some(([], rest))
      case Some((Some(key), rest)) =>
        (match Read(rest, filter)
         case None => ReadEntries(tokens, filter).None?
         case Some((value, after)) =>
           ReadEntries(tokens, filter) == if ReadEntries(after, filter).Some?
             then Some(([Entry(key, value)] + ReadEntries(after, filter).value.0, ReadEntries(after, filter).value.1)) else None)
  {
  }
}

/** The canonical text can be read back: different JSON values are written differently. */
module ReadBack {
  import opened Sorting
  import opened Canonical

  // ---------- What can be read ----------

  predicate Closes(c: char) {
    c == ',' || c == ']' || c == '}'
  }

  /** Where a value may end. */
  predicate Ends(rest: string) {
    rest == "" || Closes(rest[0])
  }

  predicate Opens(c: char) {
    c == '"' || c == '[' || c == '{'
  }

  /** Numbers, booleans and null. */
  predicate LiteralText(text: string) {
    text != "" && !Opens(text[0]) && forall i :: 0 <= i < |text| ==> !Closes(text[i])
  }

  /** Strings are written between quotes, and where one ends can be told without knowing what follows. */
  ghost predicate Delimits(quote: string -> string) {
    && (forall s :: quote(s) != "" && quote(s)[0] == '"')
    && (forall s, t :: quote(s) <= quote(t) ==> s == t)
  }

  predicate Readable(j: Json) {
    match j
    case JLiteral(text) => LiteralText(text)
    case JWord(_) => true
    case JArray(items) => forall k :: 0 <= k < |items| ==> Readable(items[k])
    case JObject(members) => forall k :: 0 <= k < |members| ==> Readable(members[k].value)
  }

  // ---------- Values with their members in order ----------

  /** The value with the members of its objects in the order they are written in. */
  function Ordered(j: Json): Json {
    match j
    case JArray(items) => JArray(OrderedAll(items))
    case JObject(members) => JObject(Items(Sort(OrderedMembers(members))))
    case _ => j
  }

  function OrderedAll(items: seq<Json>): (ordered: seq<Json>)
    ensures |ordered| == |items| && forall k :: 0 <= k < |items| ==> ordered[k] == Ordered(items[k])
  {
    if items == [] then [] else [Ordered(items[0])] + OrderedAll(items[1..])
  }

  function OrderedMembers(members: seq<Member>): (ordered: seq<Keyed<Member>>)
    ensures |ordered| == |members|
    ensures forall k :: 0 <= k < |members| ==>
              ordered[k] == Keyed(members[k].name, Member(members[k].name, Ordered(members[k].value)))
  {
    if members == [] then []
    else [Keyed(members[0].name, Member(members[0].name, Ordered(members[0].value)))] + OrderedMembers(members[1..])
  }

  /** The text of a value, member by member as they come. */
  function Plain(quote: string -> string, j: Json): string
    decreases j, 0
  {
    match j
    case JLiteral(text) => text
    case JWord(text) => quote(text)
    case JArray(items) => "[" + Listing(quote, items) + "]"
    case JObject(members) => "{" + MemberListing(quote, members) + "}"
  }

  function Listing(quote: string -> string, items: seq<Json>): string
    decreases items, 1
  {
    if items == [] then ""
    else Plain(quote, items[0]) + (if |items| == 1 then "" else "," + Listing(quote, items[1..]))
  }

  function PlainMember(quote: string -> string, member: Member): string
    decreases member, 1
  {
    quote(member.name) + ":" + Plain(quote, member.value)
  }

  function MemberListing(quote: string -> string, members: seq<Member>): string
    decreases members, 2
  {
    if members == [] then ""
    else PlainMember(quote, members[0]) + (if |members| == 1 then "" else "," + MemberListing(quote, members[1..]))
  }

  lemma {:induction false} JoinedFirst(texts: seq<string>)
    requires |texts| > 1
    ensures Joined(texts) == texts[0] + "," + Joined(texts[1..])
  {
    var init, last := texts[..|texts| - 1], texts[|texts| - 1];
    if |texts| > 2 {
      JoinedFirst(init);
      assert init[1..] == texts[1..][..|texts| - 2] && texts[1..][|texts| - 2] == last;
      assert Joined(texts) == texts[0] + "," + Joined(init[1..]) + "," + last;
      assert Joined(texts[1..]) == Joined(init[1..]) + "," + last;
    }
  }

  /** Sorting looks at the keys alone. */
  lemma {:induction false} SortMaps<T, U>(a: seq<Keyed<T>>, b: seq<Keyed<U>>, f: T -> U)
    requires |a| == |b| && forall k :: 0 <= k < |a| ==> b[k] == Keyed(a[k].key, f(a[k].item))
    ensures |Sort(a)| == |Sort(b)| == |a|
    ensures forall k :: 0 <= k < |a| ==> Sort(b)[k] == Keyed(Sort(a)[k].key, f(Sort(a)[k].item))
  {
    if a != [] {
      var last := |a| - 1;
      SortMaps(a[..last], b[..last], f);
      InsertMaps(Sort(a[..last]), Sort(b[..last]), a[last], b[last], f);
    }
  }

  lemma {:induction false} InsertMaps<T, U>(a: seq<Keyed<T>>, b: seq<Keyed<U>>, k: Keyed<T>, l: Keyed<U>, f: T -> U)
    requires |a| == |b| && forall i :: 0 <= i < |a| ==> b[i] == Keyed(a[i].key, f(a[i].item))
    requires l == Keyed(k.key, f(k.item))
    ensures |Insert(a, k)| == |Insert(b, l)| == |a| + 1
    ensures forall i :: 0 <= i < |Insert(a, k)| ==> Insert(b, l)[i] == Keyed(Insert(a, k)[i].key, f(Insert(a, k)[i].item))
  {
    if a != [] {
      var last := |a| - 1;
      if !TextLeq(a[last].key, k.key) {
        InsertMaps(a[..last], b[..last], k, l, f);
      }
    }
  }

  // ---------- Writing is writing in order ----------

  lemma {:induction false} EncodeIsPlain(quote: string -> string, j: Json)
    ensures Encode(quote, j) == Plain(quote, Ordered(j))
    decreases j, 0
  {
    match j
    case JArray(items) => ListingIs(quote, items);
    case JObject(members) =>
      var f := (m: Member) => PlainMember(quote, m);
      LabelsAre(quote, members);
      SortMaps(OrderedMembers(members), Labelled(quote, members), f);
      MembersListed(quote, Items(Sort(OrderedMembers(members))), Items(Sort(Labelled(quote, members))));
    case _ =>
  }

  lemma {:induction false} LabelsAre(quote: string -> string, members: seq<Member>)
    ensures forall k :: 0 <= k < |members| ==>
              Labelled(quote, members)[k]
              == Keyed(OrderedMembers(members)[k].key, PlainMember(quote, OrderedMembers(members)[k].item))
    decreases members, 1
  {
    forall k | 0 <= k < |members|
      ensures Labelled(quote, members)[k]
           == Keyed(OrderedMembers(members)[k].key, PlainMember(quote, OrderedMembers(members)[k].item))
    {
      EncodeIsPlain(quote, members[k].value);
    }
  }

  lemma {:induction false} MembersListed(quote: string -> string, members: seq<Member>, texts: seq<string>)
    requires |texts| == |members| && forall k :: 0 <= k < |members| ==> texts[k] == PlainMember(quote, members[k])
    ensures Joined(texts) == MemberListing(quote, members)
  {
    hide PlainMember;
    if |members| > 1 {
      JoinedFirst(texts);
      MembersListed(quote, members[1..], texts[1..]);
    }
  }

  lemma {:induction false} ListingIs(quote: string -> string, items: seq<Json>)
    ensures Joined(EncodeAll(quote, items)) == Listing(quote, OrderedAll(items))
    decreases items, 1
  {
    if items != [] {
      EncodeIsPlain(quote, items[0]);
      if |items| > 1 {
        var texts := EncodeAll(quote, items);
        JoinedFirst(texts);
        ListingIs(quote, items[1..]);
        assert texts[1..] == EncodeAll(quote, items[1..]);
        assert OrderedAll(items)[1..] == OrderedAll(items[1..]);
      }
    }
  }

  // ---------- Reading ----------

  /** A text without closing characters does not reach past another that ends before one. */
  lemma NoLonger(t: string, u: string, r: string, s: string)
    requires (forall i :: 0 <= i < |u| ==> !Closes(u[i])) && Ends(r) && t + r == u + s
    ensures |u| <= |t|
  {
    assert forall i :: 0 <= i < |u| ==> (u + s)[i] == u[i];
    if r != "" {
      assert (t + r)[|t|] == r[0];
    }
  }

  lemma LiteralReads(t: string, u: string, r: string, s: string)
    requires LiteralText(t) && LiteralText(u) && Ends(r) && Ends(s) && t + r == u + s
    ensures t == u && r == s
  {
    NoLonger(t, u, r, s);
    NoLonger(u, t, s, r);
    SameCut(t, r, u, s);
  }

  lemma SameCut(t: string, r: string, u: string, s: string)
    requires t + r == u + s && |t| == |u|
    ensures t == u && r == s
  {
    assert (t + r)[..|t|] == t && (u + s)[..|t|] == u && (t + r)[|t|..] == r && (u + s)[|t|..] == s;
  }

  lemma PrefixOf(t: string, r: string, u: string, s: string)
    requires t + r == u + s && |t| <= |u|
    ensures t <= u
  {
    assert (u + s)[..|t|] == u[..|t|] && (t + r)[..|t|] == t;
  }

  lemma QuoteReads(quote: string -> string, t: string, u: string, r: string, s: string)
    requires Delimits(quote) && quote(t) + r == quote(u) + s
    ensures t == u && r == s
  {
    if |quote(t)| <= |quote(u)| {
      PrefixOf(quote(t), r, quote(u), s);
    } else {
      PrefixOf(quote(u), s, quote(t), r);
    }
    SameCut(quote(t), r, quote(u), s);
  }

  /** How a value starts tells what it is. */
  lemma PlainStarts(quote: string -> string, j: Json)
    requires Delimits(quote) && Readable(j)
    ensures var text := Plain(quote, j);
      && text != "" && !Closes(text[0])
      && (j.JWord? <==> text[0] == '"') && (j.JArray? <==> text[0] == '[') && (j.JObject? <==> text[0] == '{')
  {
  }

  lemma FirstChar(text: string, rest: string)
    requires text != ""
    ensures (text + rest)[0] == text[0]
  {
  }

  /** The text of a value, followed by anything a value may end before, can be read in one way only. */
  lemma {:induction false} PlainReads(quote: string -> string, a: Json, b: Json, r: string, s: string)
    requires Delimits(quote) && Readable(a) && Readable(b) && Ends(r) && Ends(s)
    requires Plain(quote, a) + r == Plain(quote, b) + s
    ensures a == b && r == s
    decreases a, 0
  {
    PlainStarts(quote, a);
    PlainStarts(quote, b);
    FirstChar(Plain(quote, a), r);
    FirstChar(Plain(quote, b), s);
    match a
    case JLiteral(text) => LiteralReads(text, b.text, r, s);
    case JWord(text) => QuoteReads(quote, text, b.text, r, s);
    case JArray(items) =>
      Unwrapped("[", Listing(quote, items), "]", r, Listing(quote, b.items), s);
      ListingReads(quote, items, b.items, r, s);
    case JObject(members) =>
      Unwrapped("{", MemberListing(quote, members), "}", r, MemberListing(quote, b.members), s);
      MemberListingReads(quote, members, b.members, r, s);
  }

  lemma Unwrapped(open: string, x: string, close: string, r: string, y: string, s: string)
    requires |open| == 1 && open + x + close + r == open + y + close + s
    ensures x + (close + r) == y + (close + s)
  {
    assert (open + x + close + r)[1..] == x + (close + r);
    assert (open + y + close + s)[1..] == y + (close + s);
  }

  /** What follows the first of some items. */
  function Tail(more: bool, rest: string, after: string): string {
    if more then "," + (rest + after) else after
  }

  lemma TailsAgree(more: bool, x: string, more': bool, y: string, close: char, r: string, s: string)
    requires (close == ']' || close == '}') && Tail(more, x, [close] + r) == Tail(more', y, [close] + s)
    ensures more == more' && (more ==> x + ([close] + r) == y + ([close] + s)) && (!more ==> r == s)
  {
    if more {
      assert Tail(more, x, [close] + r)[0] == ',';
      assert more';
      assert Tail(more, x, [close] + r)[1..] == x + ([close] + r);
      assert Tail(more', y, [close] + s)[1..] == y + ([close] + s);
    } else {
      assert Tail(more, x, [close] + r)[0] == close;
      assert !more';
      assert ([close] + r)[1..] == r && ([close] + s)[1..] == s;
    }
  }

  lemma Regroup(first: string, rest: string, after: string)
    ensures first + ("," + rest) + after == first + ("," + (rest + after))
    ensures first + "" + after == first + after
  {
  }

  lemma ListingFirst(quote: string -> string, items: seq<Json>, after: string)
    requires items != []
    ensures Listing(quote, items) + after
         == Plain(quote, items[0]) + Tail(|items| > 1, Listing(quote, items[1..]), after)
  {
    Regroup(Plain(quote, items[0]), Listing(quote, items[1..]), after);
    hide Plain, Closes;
    assert Listing(quote, items) == Plain(quote, items[0]) + (if |items| == 1 then "" else "," + Listing(quote, items[1..]));
    hide Listing;
  }

  lemma ListingStarts(quote: string -> string, items: seq<Json>, after: string)
    requires Delimits(quote) && items != [] && Readable(items[0])
    ensures Listing(quote, items) + after != "" && !Closes((Listing(quote, items) + after)[0])
  {
    PlainStarts(quote, items[0]);
    ListingFirst(quote, items, after);
  }

  lemma NothingListed(quote: string -> string, items: seq<Json>, close: char, r: string, s: string)
    requires Delimits(quote) && forall k :: 0 <= k < |items| ==> Readable(items[k])
    requires Closes(close) && [close] + r == Listing(quote, items) + ([close] + s)
    ensures items == [] && r == s
  {
    assert ([close] + r)[0] == close && ([close] + r)[1..] == r && ([close] + s)[1..] == s;
    if items != [] {
      ListingStarts(quote, items, [close] + s);
      assert false;
    }
    assert "" + ([close] + s) == [close] + s;
  }

  lemma {:induction false} ListingReads(quote: string -> string, a: seq<Json>, b: seq<Json>, r: string, s: string)
    requires Delimits(quote) && (forall k :: 0 <= k < |a| ==> Readable(a[k])) && forall k :: 0 <= k < |b| ==> Readable(b[k])
    requires Listing(quote, a) + ("]" + r) == Listing(quote, b) + ("]" + s)
    ensures a == b && r == s
    decreases a, 1
  {
    if a == [] {
      assert "" + ("]" + r) == "]" + r;
      NothingListed(quote, b, ']', r, s);
    } else if b == [] {
      assert "" + ("]" + s) == "]" + s;
      NothingListed(quote, a, ']', s, r);
    } else {
      ListingFirst(quote, a, "]" + r);
      ListingFirst(quote, b, "]" + s);
      PlainReads(quote, a[0], b[0], Tail(|a| > 1, Listing(quote, a[1..]), "]" + r),
                 Tail(|b| > 1, Listing(quote, b[1..]), "]" + s));
      TailsAgree(|a| > 1, Listing(quote, a[1..]), |b| > 1, Listing(quote, b[1..]), ']', r, s);
      if |a| > 1 {
        ListingReads(quote, a[1..], b[1..], r, s);
      }
      assert a == [a[0]] + a[1..] && b == [b[0]] + b[1..];
    }
  }

  lemma MemberReads(quote: string -> string, a: Member, b: Member, r: string, s: string)
    requires Delimits(quote) && Readable(a.value) && Readable(b.value) && Ends(r) && Ends(s)
    requires PlainMember(quote, a) + r == PlainMember(quote, b) + s
    ensures a == b && r == s
    decreases a, 0
  {
    var x, y := Plain(quote, a.value), Plain(quote, b.value);
    assert PlainMember(quote, a) + r == quote(a.name) + (":" + (x + r));
    assert PlainMember(quote, b) + s == quote(b.name) + (":" + (y + s));
    QuoteReads(quote, a.name, b.name, ":" + (x + r), ":" + (y + s));
    assert (":" + (x + r))[1..] == x + r && (":" + (y + s))[1..] == y + s;
    PlainReads(quote, a.value, b.value, r, s);
  }

  lemma MemberListingFirst(quote: string -> string, members: seq<Member>, after: string)
    requires members != []
    ensures MemberListing(quote, members) + after
         == PlainMember(quote, members[0]) + Tail(|members| > 1, MemberListing(quote, members[1..]), after)
  {
    Regroup(PlainMember(quote, members[0]), MemberListing(quote, members[1..]), after);
    hide PlainMember, Closes;
    assert MemberListing(quote, members)
        == PlainMember(quote, members[0]) + (if |members| == 1 then "" else "," + MemberListing(quote, members[1..]));
    hide MemberListing;
  }

  lemma MemberListingStarts(quote: string -> string, members: seq<Member>, after: string)
    requires Delimits(quote) && members != []
    ensures MemberListing(quote, members) + after != "" && (MemberListing(quote, members) + after)[0] == '"'
  {
    assert quote(members[0].name)[0] == '"';
    assert PlainMember(quote, members[0])[0] == '"';
    MemberListingFirst(quote, members, after);
  }

  lemma NoMemberListed(quote: string -> string, members: seq<Member>, r: string, s: string)
    requires Delimits(quote) && "}" + r == MemberListing(quote, members) + ("}" + s)
    ensures members == [] && r == s
  {
    assert ("}" + r)[0] == '}' && ("}" + r)[1..] == r && ("}" + s)[1..] == s;
    if members != [] {
      MemberListingStarts(quote, members, "}" + s);
      assert false;
    }
    assert "" + ("}" + s) == "}" + s;
  }

  lemma {:induction false} MemberListingReads(quote: string -> string, a: seq<Member>, b: seq<Member>, r: string, s: string)
    requires Delimits(quote) && (forall k :: 0 <= k < |a| ==> Readable(a[k].value))
    requires forall k :: 0 <= k < |b| ==> Readable(b[k].value)
    requires MemberListing(quote, a) + ("}" + r) == MemberListing(quote, b) + ("}" + s)
    ensures a == b && r == s
    decreases a, 1
  {
    if a == [] {
      assert "" + ("}" + r) == "}" + r;
      NoMemberListed(quote, b, r, s);
    } else if b == [] {
      assert "" + ("}" + s) == "}" + s;
      NoMemberListed(quote, a, s, r);
    } else {
      MemberListingFirst(quote, a, "}" + r);
      MemberListingFirst(quote, b, "}" + s);
      MemberReads(quote, a[0], b[0], Tail(|a| > 1, MemberListing(quote, a[1..]), "}" + r),
                  Tail(|b| > 1, MemberListing(quote, b[1..]), "}" + s));
      TailsAgree(|a| > 1, MemberListing(quote, a[1..]), |b| > 1, MemberListing(quote, b[1..]), '}', r, s);
      if |a| > 1 {
        MemberListingReads(quote, a[1..], b[1..], r, s);
      }
      assert a == [a[0]] + a[1..] && b == [b[0]] + b[1..];
    }
  }

  // ---------- Different values, different texts ----------

  lemma {:induction false} OrderedIsReadable(j: Json)
    requires Readable(j)
    ensures Readable(Ordered(j))
  {
    match j
    case JArray(items) =>
      forall k | 0 <= k < |items|
        ensures Readable(OrderedAll(items)[k])
      {
        OrderedIsReadable(items[k]);
      }
    case JObject(members) =>
      var keyed := OrderedMembers(members);
      var sorted := Sort(keyed);
      SortPermutes(keyed);
      forall k | 0 <= k < |sorted|
        ensures Readable(sorted[k].item.value)
      {
        var i := Position(sorted, keyed, k);
        OrderedIsReadable(members[i].value);
      }
    case _ =>
  }

  /** Two JSON values are written alike only if they are the same, up to the order of the members of their objects. */
  lemma EqualTextsAreSame(quote: string -> string, a: Json, b: Json)
    requires Delimits(quote) && Readable(a) && Readable(b)
    ensures Encode(quote, a) == Encode(quote, b) <==> Ordered(a) == Ordered(b)
  {
    EncodeIsPlain(quote, a);
    EncodeIsPlain(quote, b);
    if Encode(quote, a) == Encode(quote, b) {
      OrderedIsReadable(a);
      OrderedIsReadable(b);
      assert Plain(quote, Ordered(a)) + "" == Plain(quote, Ordered(b)) + "";
      PlainReads(quote, Ordered(a), Ordered(b), "", "");
    }
  }

  /** Literals, also as mapping keys, are written as literals. */
  predicate Legible(v: Argument) {
    match v
    case Literal(text) => LiteralText(text)
    case Word(_) => true
    case Listed(items) => forall k :: 0 <= k < |items| ==> Legible(items[k])
    case Bag(items) => forall k :: 0 <= k < |items| ==> Legible(items[k])
    case Mapping(entries) =>
      forall k :: 0 <= k < |entries| ==>
        (entries[k].key.LiteralKey? ==> LiteralText(entries[k].key.text)) && Legible(entries[k].value)
  }

  lemma SortedIsReadable(quote: string -> string, items: seq<Json>)
    requires forall k :: 0 <= k < |items| ==> Readable(items[k])
    ensures var sorted := SortedByText(quote, items); forall k :: 0 <= k < |sorted| ==> Readable(sorted[k])
  {
    var keyed := WithText(quote, items);
    SortPermutes(keyed);
    var sorted := Sort(keyed);
    forall k | 0 <= k < |sorted|
      ensures Readable(sorted[k].item)
    {
      var i := Position(sorted, keyed, k);
    }
  }

  lemma {:induction false} LegibleIsReadable(quote: string -> string, v: Argument)
    requires Legible(v)
    ensures Readable(Normalize(quote, v))
  {
    hide SortedByText;
    match v
    case Listed(items) =>
      forall k | 0 <= k < |items|
        ensures Readable(Normalize(quote, items[k]))
      {
        LegibleIsReadable(quote, items[k]);
      }
    case Bag(items) =>
      forall k | 0 <= k < |items|
        ensures Readable(Normalize(quote, items[k]))
      {
        LegibleIsReadable(quote, items[k]);
      }
      SortedIsReadable(quote, NormalizeAll(quote, items));
    case Mapping(entries) =>
      forall k | 0 <= k < |entries|
        ensures Readable(Normalize(quote, entries[k].value)) && Readable(NormalizePair(quote, entries[k]))
      {
        LegibleIsReadable(quote, entries[k].value);
      }
      SortedIsReadable(quote, NormalizePairs(quote, entries));
    case _ =>
  }

  /** Arguments of one canonical text are normalized to one JSON value, up to the order of object members. */
  lemma TextTellsValue(quote: string -> string, v: Argument, w: Argument)
    requires Delimits(quote) && Legible(v) && Legible(w)
    ensures Text(quote, v) == Text(quote, w) <==> Ordered(Normalize(quote, v)) == Ordered(Normalize(quote, w))
  {
    LegibleIsReadable(quote, v);
    LegibleIsReadable(quote, w);
    EqualTextsAreSame(quote, Normalize(quote, v), Normalize(quote, w));
  }

  // ---------- What equal texts say of the arguments ----------

  lemma OrderedTexts(quote: string -> string, a: seq<Json>, b: seq<Json>)
    requires OrderedAll(a) == OrderedAll(b)
    ensures EncodeAll(quote, a) == EncodeAll(quote, b)
  {
    forall k | 0 <= k < |a|
      ensures Encode(quote, a[k]) == Encode(quote, b[k])
    {
      EncodeIsPlain(quote, a[k]);
      EncodeIsPlain(quote, b[k]);
      assert OrderedAll(a)[k] == OrderedAll(b)[k];
    }
    assert |a| == |OrderedAll(a)| == |b|;
  }

  /** Lists have one text exactly if their items do, in order. */
  lemma ListsAgree(quote: string -> string, v: seq<Argument>, w: seq<Argument>)
    requires Delimits(quote) && Legible(Listed(v)) && Legible(Listed(w))
    ensures Text(quote, Listed(v)) == Text(quote, Listed(w)) <==> TextAll(quote, v) == TextAll(quote, w)
  {
    hide Legible, Encode, EncodeAll, Ordered, OrderedAll, NormalizeAll;
    var a, b := NormalizeAll(quote, v), NormalizeAll(quote, w);
    TextTellsValue(quote, Listed(v), Listed(w));
    EncodedAll(quote, v);
    EncodedAll(quote, w);
    if Text(quote, Listed(v)) == Text(quote, Listed(w)) {
      ArraysAgree(a, b);
      OrderedTexts(quote, a, b);
    }
    if TextAll(quote, v) == TextAll(quote, w) {
      ArrayText(quote, a, b);
    }
  }

  lemma ArraysAgree(a: seq<Json>, b: seq<Json>)
    requires Ordered(JArray(a)) == Ordered(JArray(b))
    ensures OrderedAll(a) == OrderedAll(b)
  {
  }

  lemma SortedTextsReordered(quote: string -> string, items: seq<Json>)
    ensures multiset(EncodeAll(quote, SortedByText(quote, items))) == multiset(EncodeAll(quote, items))
  {
    hide Encode;
    var keyed, f := WithText(quote, items), (k: Keyed<Json>) => k.key;
    SortPermutes(keyed);
    MappedReordered(Sort(keyed), keyed, f);
    SortedAreLabelled(quote, items);
    assert Mapped(keyed, f) == EncodeAll(quote, items) && Mapped(Sort(keyed), f) == Keys(Sort(keyed));
  }

  /** Sets have one text exactly if their members do, in any order and as often. */
  lemma SetsAgree(quote: string -> string, v: seq<Argument>, w: seq<Argument>)
    requires Delimits(quote) && Legible(Bag(v)) && Legible(Bag(w))
    ensures Text(quote, Bag(v)) == Text(quote, Bag(w)) <==> multiset(TextAll(quote, v)) == multiset(TextAll(quote, w))
  {
    hide Legible, Encode, EncodeAll, Ordered, OrderedAll, NormalizeAll, SortedByText;
    var a, b := NormalizeAll(quote, v), NormalizeAll(quote, w);
    TextTellsValue(quote, Bag(v), Bag(w));
    EncodedAll(quote, v);
    EncodedAll(quote, w);
    if Text(quote, Bag(v)) == Text(quote, Bag(w)) {
      ArraysAgree(SortedByText(quote, a), SortedByText(quote, b));
      OrderedTexts(quote, SortedByText(quote, a), SortedByText(quote, b));
      SortedTextsReordered(quote, a);
      SortedTextsReordered(quote, b);
    }
    if multiset(TextAll(quote, v)) == multiset(TextAll(quote, w)) {
      BagText(quote, v, w);
    }
  }

  /** The name and the written value of every entry. */
  function NamedTexts(quote: string -> string, entries: seq<Binding>): seq<(string, string)> {
    seq(|entries|, i requires 0 <= i < |entries| => (entries[i].key.text, Text(quote, entries[i].value)))
  }

  lemma MembersAgree(quote: string -> string, v: seq<Binding>, w: seq<Binding>)
    requires Ordered(JObject(NormalizeMembers(quote, v))) == Ordered(JObject(NormalizeMembers(quote, w)))
    ensures multiset(NamedTexts(quote, v)) == multiset(NamedTexts(quote, w))
  {
    hide Normalize, Encode, Plain, Ordered;
    var a, b := OrderedMembers(NormalizeMembers(quote, v)), OrderedMembers(NormalizeMembers(quote, w));
    var f := (m: Member) => (m.name, Plain(quote, m.value));
    OrderedObject(NormalizeMembers(quote, v), NormalizeMembers(quote, w));
    SortedItemsPermute(a);
    SortedItemsPermute(b);
    MappedReordered(Items(a), Items(b), f);
    NamedAsMembers(quote, v);
    NamedAsMembers(quote, w);
  }

  lemma OrderedObject(a: seq<Member>, b: seq<Member>)
    requires Ordered(JObject(a)) == Ordered(JObject(b))
    ensures Items(Sort(OrderedMembers(a))) == Items(Sort(OrderedMembers(b)))
  {
  }

  lemma NamedAsMembers(quote: string -> string, v: seq<Binding>)
    ensures Mapped(Items(OrderedMembers(NormalizeMembers(quote, v))), (m: Member) => (m.name, Plain(quote, m.value)))
         == NamedTexts(quote, v)
  {
    hide Normalize, Encode, Plain;
    forall i | 0 <= i < |v|
      ensures Plain(quote, Ordered(Normalize(quote, v[i].value))) == Text(quote, v[i].value)
    {
      EncodeIsPlain(quote, Normalize(quote, v[i].value));
    }
  }

  lemma NamedTextsWrite(quote: string -> string, v: seq<Binding>, w: seq<Binding>)
    requires multiset(NamedTexts(quote, v)) == multiset(NamedTexts(quote, w)) && Distinct(Names(v)) && Distinct(Names(w))
    ensures Text(quote, Mapping(v)) == Text(quote, Mapping(w))
  {
    hide Text, Labelled, NormalizeMembers, Sort, Mapped, NamedTexts, Distinct, Joined, Items;
    var f := (b: (string, string)) => Keyed(b.0, quote(b.0) + ":" + b.1);
    NamedLabels(quote, v);
    NamedLabels(quote, w);
    MappedReordered(NamedTexts(quote, v), NamedTexts(quote, w), f);
    ObjectIs(quote, v);
    ObjectIs(quote, w);
    SortedIsUnique(Labelled(quote, NormalizeMembers(quote, v)), Labelled(quote, NormalizeMembers(quote, w)));
  }

  lemma NamedLabels(quote: string -> string, v: seq<Binding>)
    ensures Labelled(quote, NormalizeMembers(quote, v))
         == Mapped(NamedTexts(quote, v), (b: (string, string)) => Keyed(b.0, quote(b.0) + ":" + b.1))
  {
    hide Normalize, Encode;
  }

  /** Mappings whose keys are rendered apart have one text exactly if the same names are bound to the same texts. */
  lemma MappingsAgree(quote: string -> string, v: seq<Binding>, w: seq<Binding>)
    requires Delimits(quote) && Legible(Mapping(v)) && Legible(Mapping(w)) && Distinct(Names(v)) && Distinct(Names(w))
    ensures Text(quote, Mapping(v)) == Text(quote, Mapping(w))
        <==> multiset(NamedTexts(quote, v)) == multiset(NamedTexts(quote, w))
  {
    hide Legible, Encode, Ordered, NormalizeMembers, NamedTexts, Distinct, Names;
    TextTellsValue(quote, Mapping(v), Mapping(w));
    if Text(quote, Mapping(v)) == Text(quote, Mapping(w)) {
      MembersAgree(quote, v, w);
    }
    if multiset(NamedTexts(quote, v)) == multiset(NamedTexts(quote, w)) {
      NamedTextsWrite(quote, v, w);
    }
  }

  // ---------- Keys that are rendered alike ----------

  lemma PairsAgree(quote: string -> string, v: seq<Binding>, w: seq<Binding>)
    requires var a, b := NormalizePairs(quote, v), NormalizePairs(quote, w);
      OrderedAll(SortedByText(quote, a)) == OrderedAll(SortedByText(quote, b))
    ensures multiset(Bound(quote, v)) == multiset(Bound(quote, w))
  {
    hide Normalize, Encode, Plain, SortedByText, NormalizePairs, OrderedAll;
    var a, b := NormalizePairs(quote, v), NormalizePairs(quote, w);
    SortedOrdered(quote, a);
    SortedOrdered(quote, b);
    var f := (j: Json) => BoundIn(quote, j);
    MappedReordered(OrderedAll(a), OrderedAll(b), f);
    BoundAsPairs(quote, v);
    BoundAsPairs(quote, w);
  }

  /** The key and the written value in a pair. */
  function BoundIn(quote: string -> string, j: Json): (Scalar, string) {
    if j.JArray? && |j.items| == 2 then
      (if j.items[0].JLiteral? then LiteralKey(j.items[0].text)
       else if j.items[0].JWord? then WordKey(j.items[0].text) else WordKey(""), Plain(quote, j.items[1]))
    else (WordKey(""), "")
  }

  lemma SortedOrdered(quote: string -> string, items: seq<Json>)
    ensures multiset(OrderedAll(SortedByText(quote, items))) == multiset(OrderedAll(items))
  {
    hide Encode, Ordered;
    var f := (j: Json) => Ordered(j);
    SortedItemsPermute(WithText(quote, items));
    assert Items(WithText(quote, items)) == items;
    MappedReordered(SortedByText(quote, items), items, f);
    assert OrderedAll(items) == Mapped(items, f);
    assert OrderedAll(SortedByText(quote, items)) == Mapped(SortedByText(quote, items), f);
  }

  lemma BoundAsPairs(quote: string -> string, v: seq<Binding>)
    ensures Mapped(OrderedAll(NormalizePairs(quote, v)), (j: Json) => BoundIn(quote, j)) == Bound(quote, v)
  {
    hide Normalize, Encode, Plain;
    forall i | 0 <= i < |v|
      ensures BoundIn(quote, Ordered(NormalizePair(quote, v[i]))) == Bound(quote, v)[i]
    {
      var key, value := NormalizeKey(v[i].key), Normalize(quote, v[i].value);
      EncodeIsPlain(quote, value);
      assert [key, value][1..] == [value] && [value][1..] == [];
      assert OrderedAll([key, value]) == [Ordered(key), Ordered(value)];
    }
  }

  /** Mappings with keys that are rendered alike have one text exactly if they bind the same keys to the same texts. */
  lemma CollidingMappingsAgree(quote: string -> string, v: seq<Binding>, w: seq<Binding>)
    requires Delimits(quote) && Legible(Mapping(v)) && Legible(Mapping(w)) && !Distinct(Names(v)) && !Distinct(Names(w))
    ensures Text(quote, Mapping(v)) == Text(quote, Mapping(w)) <==> multiset(Bound(quote, v)) == multiset(Bound(quote, w))
  {
    hide Legible, Encode, NormalizePairs, Bound, Distinct, Names, SortedByText, OrderedAll;
    var a, b := SortedByText(quote, NormalizePairs(quote, v)), SortedByText(quote, NormalizePairs(quote, w));
    TextTellsValue(quote, Mapping(v), Mapping(w));
    if Text(quote, Mapping(v)) == Text(quote, Mapping(w)) {
      SingleMemberAgrees(MAPPING_ITEMS, JArray(a), JArray(b), Normalize(quote, Mapping(v)), Normalize(quote, Mapping(w)));
      ArraysAgree(a, b);
      PairsAgree(quote, v, w);
    }
    if multiset(Bound(quote, v)) == multiset(Bound(quote, w)) {
      CollidingText(quote, v, w);
    }
  }

  lemma SingleMemberAgrees(name: string, a: Json, b: Json, x: Json, y: Json)
    requires x == JObject([Member(name, a)]) && y == JObject([Member(name, b)]) && Ordered(x) == Ordered(y)
    ensures Ordered(a) == Ordered(b)
  {
    hide Sort;
    OneMember(name, a, x);
    OneMember(name, b, y);
    assert [Member(name, Ordered(a))][0] == [Member(name, Ordered(b))][0];
  }

  lemma OneMember(name: string, a: Json, x: Json)
    requires x == JObject([Member(name, a)])
    ensures Ordered(x) == JObject([Member(name, Ordered(a))])
  {
    var keyed := OrderedMembers([Member(name, a)]);
    assert keyed == [Keyed(name, Member(name, Ordered(a)))];
    assert keyed[..0] == [] && Sort(keyed) == keyed;
  }
}

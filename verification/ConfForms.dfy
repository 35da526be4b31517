/** The two forms of a list: an array of objects, and an object member with a repeated key for each element. */
module ConfForms {

  import opened JsonToken
  import opened JsonPrint
  import opened JsonLayout
  import opened HetaoConf
  import opened ConfMeaning
  import opened ConfLoads
  import ConfSafety

  /** A member with the same key for each object among the items, in their order. */
  function Repeated(key: string, items: ItemList, more: MemberList): MemberList {
    match items
    case NoItem => more
    case ScalarItem(_, rest) => Repeated(key, rest, more)
    case ObjectItem(inner, rest) => ObjectMember(key, inner, Repeated(key, rest, more))
  }

  /** Every array, at any depth, in the other form. */
  function Spread(ms: MemberList): MemberList {
    match ms
    case NoMember => NoMember
    case ScalarMember(key, v, more) => ScalarMember(key, v, Spread(more))
    case ObjectMember(key, inner, more) => ObjectMember(key, Spread(inner), Spread(more))
    case ArrayMember(key, items, more) => Repeated(key, SpreadItems(items), Spread(more))
  }

  function SpreadItems(items: ItemList): ItemList {
    match items
    case NoItem => NoItem
    case ScalarItem(v, more) => ScalarItem(v, SpreadItems(more))
    case ObjectItem(inner, more) => ObjectItem(Spread(inner), SpreadItems(more))
  }

  predicate NoArrays(ms: MemberList) {
    match ms
    case NoMember => true
    case ScalarMember(_, _, more) => NoArrays(more)
    case ObjectMember(_, inner, more) => NoArrays(inner) && NoArrays(more)
    case ArrayMember(_, _, _) => false
  }

  predicate NoArraysWithin(items: ItemList) {
    match items
    case NoItem => true
    case ScalarItem(_, more) => NoArraysWithin(more)
    case ObjectItem(inner, more) => NoArrays(inner) && NoArraysWithin(more)
  }

  lemma {:induction false} RepeatedNoArrays(key: string, items: ItemList, more: MemberList)
    requires NoArraysWithin(items) && NoArrays(more)
    ensures NoArrays(Repeated(key, items, more))
  {
    if !items.NoItem? { RepeatedNoArrays(key, items.more, more); }
  }

  lemma {:induction false} SpreadNoArrays(ms: MemberList)
    ensures NoArrays(Spread(ms))
  {
    if !ms.NoMember? {
      SpreadNoArrays(ms.more);
      if ms.ObjectMember? { SpreadNoArrays(ms.members); }
      if ms.ArrayMember? {
        SpreadItemsNoArrays(ms.items);
        RepeatedNoArrays(ms.key, SpreadItems(ms.items), Spread(ms.more));
      }
    }
  }

  lemma {:induction false} SpreadItemsNoArrays(items: ItemList)
    ensures NoArraysWithin(SpreadItems(items))
  {
    if !items.NoItem? {
      SpreadItemsNoArrays(items.more);
      if items.ObjectItem? { SpreadNoArrays(items.members); }
    }
  }

  // ----- the form makes no difference

  function Then(read: (Conf, int), more: MemberList, s: Spot): (Conf, int) {
    if read.1 != 0 then read else MeanMembers(more, s, read.0)
  }

  lemma {:induction false} RepeatedMeans(key: string, items: ItemList, more: MemberList, s: Spot, c: Conf)
    ensures MeanMembers(Repeated(key, items, more), s, c) == Then(MeanItems(items, FieldAt(s, key), Into(s, key), c), more, s)
    decreases items
  {
    hide FieldAt, Into, MeanObject, Put;
    match items
    case NoItem =>
    case ScalarItem(_, rest) => RepeatedMeans(key, rest, more, s, c);
    case ObjectItem(inner, rest) =>
      var (d, ret) := MeanObject(inner, FieldAt(s, key), Into(s, key), c);
      MembersOnce(key, inner, Repeated(key, rest, more), s, c);
      RepeatedMeans(key, rest, more, s, d);
  }

  lemma MembersOnce(key: string, inner: MemberList, more: MemberList, s: Spot, c: Conf)
    ensures MeanMembers(ObjectMember(key, inner, more), s, c) == Then(MeanObject(inner, FieldAt(s, key), Into(s, key), c), more, s)
  {
    hide FieldAt, Into, MeanObject;
  }

  /** A tree and its other form mean the same, for every start. */
  lemma {:induction false} SpreadMeans(ms: MemberList, s: Spot, c: Conf)
    ensures MeanMembers(Spread(ms), s, c) == MeanMembers(ms, s, c)
    decreases ms, 1
  {
    hide FieldAt, Into, Put, MeanObject, MeanItems;
    if !ms.NoMember? {
      var f, t := FieldAt(s, ms.key), Into(s, ms.key);
      match ms
      case ScalarMember(_, _, more) => SpreadMeans(more, s, MeanValue(ms, s, c).0);
      case ObjectMember(_, inner, more) =>
        SpreadObjectMeans(inner, f, t, c);
        SpreadMeans(more, s, MeanValue(ms, s, c).0);
      case ArrayMember(key, items, more) =>
        RepeatedMeans(key, SpreadItems(items), Spread(more), s, c);
        SpreadItemsMean(items, f, t, c);
        SpreadMeans(more, s, MeanValue(ms, s, c).0);
    }
  }

  lemma {:induction false} SpreadObjectMeans(ms: MemberList, f: Field, s: Spot, c: Conf)
    ensures MeanObject(Spread(ms), f, s, c) == MeanObject(ms, f, s, c)
    decreases ms, 2
  {
    SpreadMeans(ms, s, c);
    hide MeanMembers, Spread, IsFull, Leave;
  }

  lemma {:induction false} SpreadItemsMean(items: ItemList, f: Field, s: Spot, c: Conf)
    ensures MeanItems(SpreadItems(items), f, s, c) == MeanItems(items, f, s, c)
    decreases items, 0
  {
    hide MeanObject, Spread;
    match items
    case NoItem =>
    case ScalarItem(_, more) => SpreadItemsMean(more, f, s, c);
    case ObjectItem(inner, more) =>
      SpreadObjectMeans(inner, f, s, c);
      SpreadItemsMean(more, f, s, MeanObject(inner, f, s, c).0);
  }

  lemma {:induction false} RepeatedSound(key: string, items: ItemList, more: MemberList)
    requires Quotable(key) && Plain(key) && SoundItems(items) && Sound(more)
    ensures Sound(Repeated(key, items, more))
    decreases items
  {
    hide Quotable, Plain, PrintableScalar, Settled;
    if !items.NoItem? { RepeatedSound(key, items.more, more); }
  }

  lemma {:induction false} SpreadSound(ms: MemberList)
    requires Sound(ms)
    ensures Sound(Spread(ms))
    decreases ms
  {
    hide Quotable, Plain, PrintableScalar, Settled;
    if !ms.NoMember? {
      SpreadSound(ms.more);
      if ms.ObjectMember? { SpreadSound(ms.members); }
      if ms.ArrayMember? {
        SpreadItemsSound(ms.items);
        RepeatedSound(ms.key, SpreadItems(ms.items), Spread(ms.more));
      }
    }
  }

  lemma {:induction false} SpreadItemsSound(items: ItemList)
    requires SoundItems(items)
    ensures SoundItems(SpreadItems(items))
    decreases items
  {
    hide Quotable, Plain, PrintableScalar, Settled;
    if !items.NoItem? {
      SpreadItemsSound(items.more);
      if items.ObjectItem? { SpreadSound(items.members); }
    }
  }

  /** A document with arrays, and the document with repeated keys instead, are loaded with the same code and leave
      the same configuration. */
  lemma FormsLoadAlike(ms: MemberList, base: Conf)
    requires Sound(ms) && ConfSafety.Bounded(base)
    ensures NoArrays(Spread(ms))
    ensures var a, b := LoadInto(ShowDocument(ms), base), LoadInto(ShowDocument(Spread(ms)), base);
      a.ret == b.ret && a.st.user.conf == b.st.user.conf && !a.st.user.wild && !b.st.user.wild
  {
    hide *;
    SpreadNoArrays(ms);
    SpreadSound(ms);
    SpreadMeans(ms, Top, base);
    LoadMeans(ms, base);
    LoadMeans(Spread(ms), base);
  }
}

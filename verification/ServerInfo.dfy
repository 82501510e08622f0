/** The server information record and its message form: a header, an index of (type, length)
    pairs, and the texts one behind the other. A record is a sequence of eleven texts by
    type number; None stands for a NULL pointer. */
module ServerInfo {
  import opened CInt
  import opened Digits
  import opened NetWords
  import opened Util

  const FIELDS := 11
  const MSGDATA := 80

  type Text = seq<byte>
  type Info = i: seq<Option<Text>> | |i| == 11
    witness [None, None, None, None, None, None, None, None, None, None, None]

  datatype Entry = Entry(kind: nat, text: Text)

  /** The order in which the fields are added: version, location, description, contact,
      serial, address, uiurl, sysname, release, nodename, machine. */
  const ORDER: seq<nat> := [0, 1, 2, 3, 8, 9, 10, 4, 6, 5, 7]

  const EMPTY: Info := [None, None, None, None, None, None, None, None, None, None, None]

  predicate Filled(info: Info, t: nat)
    requires t < 11
  {
    info[t].Some? && info[t].value != []
  }

  /** C strings hold no NUL. */
  ghost predicate CStrings(info: Info) {
    forall t :: 0 <= t < 11 && info[t].Some? ==> forall k :: 0 <= k < |info[t].value| ==> info[t].value[k] != 0
  }

  /** The index has 16 bits for a length. */
  ghost predicate Proper(info: Info) {
    CStrings(info) && forall t :: 0 <= t < 11 && info[t].Some? ==> |info[t].value| < 0x1_0000
  }

  /** The non-empty fields among the first n of the order. */
  function Entries(info: Info, n: nat): seq<Entry>
    requires n <= 11
  {
    if n == 0 then []
    else
      var t := ORDER[n - 1];
      Entries(info, n - 1) + if Filled(info, t) then [Entry(t, info[t].value)] else []
  }

  // ---------- the message form ----------

  function Index(es: seq<Entry>): (b: seq<byte>)
    ensures |b| == 4 * |es|
  {
    if es == [] then []
    else Index(es[..|es| - 1]) + Be16(es[|es| - 1].kind % 0x100) + Be16(|es[|es| - 1].text|)
  }

  function Texts(es: seq<Entry>): seq<byte> {
    if es == [] then [] else Texts(es[..|es| - 1]) + es[|es| - 1].text
  }

  function Message(es: seq<Entry>): seq<byte> {
    [0, 0] + Be16(|es|) + Index(es) + Texts(es)
  }

  // ---------- reading it ----------

  function Kind(b: seq<byte>, i: nat): nat
    requires 8 + 4 * i <= |b|
  {
    Half(b, 4 + 4 * i) % 0x100
  }

  function Length(b: seq<byte>, i: nat): nat
    requires 8 + 4 * i <= |b|
  {
    Half(b, 6 + 4 * i)
  }

  /** Where the text of entry i starts: behind an index of idx entries and all earlier texts. */
  function TextAt(b: seq<byte>, idx: nat, i: nat): nat
    requires i <= idx && 4 + 4 * idx <= |b|
  {
    if i == 0 then 4 + 4 * idx else TextAt(b, idx, i - 1) + Length(b, i - 1)
  }

  predicate WellFormed(b: seq<byte>) {
    && |b| >= 4 && b[0] == 0 && b[1] == 0
    && Half(b, 2) <= FIELDS && 4 + 4 * Half(b, 2) <= |b|
    && TextAt(b, Half(b, 2), Half(b, 2)) <= |b|
  }

  /** A read entry is stored unless it is empty, a lone NUL, or of a type not known. */
  function Store(info: Info, kind: nat, text: Text): Info {
    if |text| == 0 || (|text| == 1 && text[0] == 0) || kind >= 11 then info
    else info[kind := Some(text)]
  }

  function Filling(b: seq<byte>, idx: nat, n: nat): Info
    requires n <= idx && 4 + 4 * idx <= |b| && TextAt(b, idx, idx) <= |b|
  {
    if n == 0 then EMPTY
    else
      TextWithin(b, idx, n);
      Store(Filling(b, idx, n - 1), Kind(b, n - 1), b[TextAt(b, idx, n - 1)..TextAt(b, idx, n)])
  }

  lemma {:induction false} TextWithin(b: seq<byte>, idx: nat, n: nat)
    requires n <= idx && 4 + 4 * idx <= |b|
    ensures TextAt(b, idx, n) <= TextAt(b, idx, idx)
    ensures n > 0 ==> TextAt(b, idx, n - 1) <= TextAt(b, idx, n)
    decreases idx - n
  {
    if n < idx {
      TextWithin(b, idx, n + 1);
    }
  }

  function Parse(b: seq<byte>): Option<Info> {
    if WellFormed(b) then Some(Filling(b, Half(b, 2), Half(b, 2))) else None
  }

  // ---------- the round trip ----------

  /** What is left of a record: empty and missing fields both come back missing. */
  function NonEmpty(info: Info): Info {
    seq(11, t requires 0 <= t < 11 => if Filled(info, t) then info[t] else None)
  }

  function Stored(es: seq<Entry>): Info {
    if es == [] then EMPTY else Store(Stored(es[..|es| - 1]), es[|es| - 1].kind, es[|es| - 1].text)
  }

  lemma {:induction false} IndexAt(es: seq<Entry>, i: nat)
    requires i < |es|
    ensures Index(es)[4 * i..4 * i + 2] == Be16(es[i].kind % 0x100)
    ensures Index(es)[4 * i + 2..4 * i + 4] == Be16(|es[i].text|)
  {
    var n := |es| - 1;
    var front := Index(es[..n]);
    if i < n {
      IndexAt(es[..n], i);
      assert Index(es)[4 * i..4 * i + 2] == front[4 * i..4 * i + 2];
      assert Index(es)[4 * i + 2..4 * i + 4] == front[4 * i + 2..4 * i + 4];
    }
  }

  lemma TextsStep(es: seq<Entry>)
    requires es != []
    ensures Texts(es) == Texts(es[..|es| - 1]) + es[|es| - 1].text
  {
  }

  lemma {:induction false} TextsAt(es: seq<Entry>, i: nat)
    requires i < |es|
    ensures |Texts(es[..i + 1])| == |Texts(es[..i])| + |es[i].text| <= |Texts(es)|
    ensures Texts(es)[|Texts(es[..i])|..|Texts(es[..i + 1])|] == es[i].text
  {
    hide Texts;
    var n := |es| - 1;
    TextsStep(es);
    if i < n {
      TextsAt(es[..n], i);
      assert es[..n][..i] == es[..i] && es[..n][..i + 1] == es[..i + 1];
      SameSlice(Texts(es[..n]), es[n].text, |Texts(es[..i])|, |Texts(es[..i + 1])|);
    } else {
      assert es[..i + 1] == es;
    }
  }

  lemma SameSlice(x: seq<byte>, y: seq<byte>, lo: nat, hi: nat)
    requires lo <= hi <= |x|
    ensures (x + y)[lo..hi] == x[lo..hi]
  {
  }

  ghost predicate Short(es: seq<Entry>) {
    |es| <= 11 && forall i :: 0 <= i < |es| ==> es[i].kind < 0x100 && |es[i].text| < 0x1_0000
  }

  /** A 16-bit field of x keeps its value between other bytes. */
  lemma HalfBetween(head: seq<byte>, x: seq<byte>, rest: seq<byte>, o: nat, v: int)
    requires o + 2 <= |x| && x[o..o + 2] == Be16(v)
    ensures Half(head + x + rest, |head| + o) == v % 0x1_0000
  {
    hide Be16;
    var b := head + x + rest;
    HalfOfBe16(x, o, v);
    assert b[|head| + o] == x[o] && b[|head| + o + 1] == x[o + 1];
  }

  lemma MessageHead(es: seq<Entry>, b: seq<byte>)
    requires Short(es) && b == Message(es)
    ensures |b| == 4 + 4 * |es| + |Texts(es)|
    ensures b[0] == 0 && b[1] == 0 && Half(b, 2) == |es|
  {
    hide Be16, Half, Index, Texts;
    assert b[2..4] == Be16(|es|);
    HalfOfBe16(b, 2, |es|);
  }

  lemma MessageHalf(es: seq<Entry>, b: seq<byte>, o: nat, v: int)
    requires b == Message(es) && o + 2 <= 4 * |es| && Index(es)[o..o + 2] == Be16(v)
    ensures |b| >= 6 + o && Half(b, 4 + o) == v % 0x1_0000
  {
    hide Be16, Half, Index, Texts;
    HalfBetween([0, 0] + Be16(|es|), Index(es), Texts(es), o, v);
  }

  lemma MessageIndex(es: seq<Entry>, b: seq<byte>, i: nat)
    requires Short(es) && b == Message(es) && i < |es|
    ensures |b| >= 8 + 4 * i
    ensures Kind(b, i) == es[i].kind && Length(b, i) == |es[i].text|
  {
    hide Be16, Half, Index, Message;
    IndexAt(es, i);
    MessageHalf(es, b, 4 * i, es[i].kind % 0x100);
    MessageHalf(es, b, 4 * i + 2, |es[i].text|);
  }

  /** The header and index of a message. */
  lemma MessageFields(es: seq<Entry>, b: seq<byte>, i: nat)
    requires Short(es) && b == Message(es)
    ensures |b| == 4 + 4 * |es| + |Texts(es)|
    ensures b[0] == 0 && b[1] == 0 && Half(b, 2) == |es|
    ensures i < |es| ==> Kind(b, i) == es[i].kind && Length(b, i) == |es[i].text|
  {
    hide Half, Message, Kind, Length;
    MessageHead(es, b);
    if i < |es| {
      MessageIndex(es, b, i);
    }
  }

  /** The header and index byte by byte, numbers with the most significant byte first. */
  lemma MessageByBytes(es: seq<Entry>, b: seq<byte>, i: nat)
    requires Short(es) && b == Message(es) && i < |es|
    ensures |b| >= 4 + 4 * |es|
    ensures b[0] == 0 && b[1] == 0 && Big(b[2..4]) == |es|
    ensures b[4 + 4 * i] == 0 && b[5 + 4 * i] == es[i].kind && Big(b[6 + 4 * i..8 + 4 * i]) == |es[i].text|
  {
    hide Big, Be16, Message, Index, Texts;
    MessageFields(es, b, i);
    IndexAt(es, i);
    MessageHalf(es, b, 4 * i, es[i].kind % 0x100);
    HalfIsBig(b, 2);
    HalfIsBig(b, 6 + 4 * i);
  }

  /** The fields go into the message in this order. */
  lemma {:induction false} FieldOrder(info: Info, n: nat)
    requires n <= 11 && forall t: nat :: t < 11 ==> Filled(info, t)
    ensures |Entries(info, n)| == n
    ensures forall i :: 0 <= i < n ==> Entries(info, n)[i].kind == [0, 1, 2, 3, 8, 9, 10, 4, 6, 5, 7][i]
  {
    if n > 0 {
      FieldOrder(info, n - 1);
    }
  }

  /** Text offsets are the prefix sums of the lengths in the index, and each text lies there. */
  lemma {:induction false} MessageTexts(es: seq<Entry>, b: seq<byte>, i: nat)
    requires Short(es) && b == Message(es) && i <= |es|
    ensures 4 + 4 * |es| <= |b| && TextAt(b, |es|, i) == 4 + 4 * |es| + |Texts(es[..i])| <= |b|
    ensures i > 0 ==> TextAt(b, |es|, i - 1) <= TextAt(b, |es|, i)
                      && b[TextAt(b, |es|, i - 1)..TextAt(b, |es|, i)] == es[i - 1].text
  {
    hide Be16, Half, Index, Kind, Length;
    MessageFields(es, b, 0);
    if i > 0 {
      MessageTexts(es, b, i - 1);
      MessageFields(es, b, i - 1);
      TextsAt(es, i - 1);
      var h := 4 + 4 * |es|;
      assert b[h..] == Texts(es);
      assert b[TextAt(b, |es|, i - 1)..TextAt(b, |es|, i)] == Texts(es)[|Texts(es[..i - 1])|..|Texts(es[..i])|];
    }
  }

  lemma {:induction false} FillingIsStored(es: seq<Entry>, b: seq<byte>, n: nat)
    requires Short(es) && b == Message(es) && n <= |es|
    requires 4 + 4 * |es| <= |b| && TextAt(b, |es|, |es|) <= |b|
    ensures Filling(b, |es|, n) == Stored(es[..n])
  {
    hide Message, TextAt, Kind, Length, Store;
    if n > 0 {
      FillingIsStored(es, b, n - 1);
      MessageTexts(es, b, n);
      MessageFields(es, b, n - 1);
      TextWithin(b, |es|, n);
      assert es[..n][..n - 1] == es[..n - 1];
    }
  }

  /** Reading a message stores its entries in order. */
  lemma ParseMessage(es: seq<Entry>)
    requires Short(es)
    ensures Parse(Message(es)) == Some(Stored(es))
  {
    hide Message, TextAt, Half, Filling, Stored;
    var b := Message(es);
    MessageFields(es, b, 0);
    MessageTexts(es, b, |es|);
    assert es[..|es|] == es;
    FillingIsStored(es, b, |es|);
  }

  lemma NothingStored()
    ensures Stored([]) == EMPTY
  {
  }

  predicate Listed(t: nat, n: nat)
    requires n <= 11
  {
    n > 0 && (ORDER[n - 1] == t || Listed(t, n - 1))
  }

  lemma StoredSnoc(es: seq<Entry>, e: Entry)
    ensures Stored(es + [e]) == Store(Stored(es), e.kind, e.text)
  {
    assert (es + [e])[..|es|] == es;
  }

  lemma {:induction false} StoredEntries(info: Info, n: nat)
    requires n <= 11 && Proper(info)
    ensures Short(Entries(info, n)) && |Entries(info, n)| <= n
    ensures forall t: nat :: t < 11 ==>
              Stored(Entries(info, n))[t] == if Listed(t, n) && Filled(info, t) then info[t] else None
  {
    hide Stored;
    if n == 0 {
      NothingStored();
    } else {
      StoredEntries(info, n - 1);
      var es, t := Entries(info, n - 1), ORDER[n - 1];
      assert t < 11;
      if Filled(info, t) {
        StoredSnoc(es, Entry(t, info[t].value));
        assert Stored(Entries(info, n)) == Stored(es)[t := Some(info[t].value)];
      } else {
        assert Entries(info, n) == es;
      }
    }
  }

  /** Every non-empty field of a record comes back unchanged; empty and missing ones are missing. */
  lemma RoundTrip(info: Info)
    requires Proper(info)
    ensures Parse(Message(Entries(info, 11))) == Some(NonEmpty(info))
  {
    hide Parse, Message;
    StoredEntries(info, 11);
    ParseMessage(Entries(info, 11));
    forall t: nat | t < 11 ensures Listed(t, 11) {
      AllListed(t);
    }
    assert Stored(Entries(info, 11)) == NonEmpty(info);
  }

  /** No longer text is ever read. */
  lemma {:induction false} FillingIsShort(b: seq<byte>, idx: nat, n: nat)
    requires n <= idx && 4 + 4 * idx <= |b| && TextAt(b, idx, idx) <= |b|
    ensures forall t :: 0 <= t < 11 && Filling(b, idx, n)[t].Some? ==> |Filling(b, idx, n)[t].value| < 0x1_0000
  {
    hide Half;
    if n > 0 {
      FillingIsShort(b, idx, n - 1);
      TextWithin(b, idx, n);
    }
  }

  /** A record comes back exactly if none of its texts is longer than the index can say. */
  lemma RoundTripIff(info: Info)
    requires CStrings(info)
    ensures Parse(Message(Entries(info, 11))) == Some(NonEmpty(info)) <==> Proper(info)
  {
    hide Message, Entries;
    var b := Message(Entries(info, 11));
    if Proper(info) {
      RoundTrip(info);
    } else if WellFormed(b) {
      hide Filling, WellFormed;
      FillingIsShort(b, Half(b, 2), Half(b, 2));
      var t :| 0 <= t < 11 && info[t].Some? && |info[t].value| >= 0x1_0000;
      assert NonEmpty(info)[t] == info[t];
    }
  }

  lemma AllListed(t: nat)
    requires t < 11
    ensures Listed(t, 11)
  {
    assert ORDER[10] == 7 && ORDER[9] == 5 && ORDER[8] == 6 && ORDER[7] == 4 && ORDER[6] == 10 && ORDER[5] == 9;
    assert ORDER[4] == 8 && ORDER[3] == 3 && ORDER[2] == 2 && ORDER[1] == 1 && ORDER[0] == 0;
    assert Listed(0, 1);
    assert Listed(1, 2);
    assert Listed(2, 3);
    assert Listed(3, 4);
    assert Listed(8, 5);
    assert Listed(9, 6);
    assert Listed(10, 7);
    assert Listed(4, 8);
    assert Listed(6, 9);
    assert Listed(5, 10);
  }

  // ---------- the two functions ----------

  /** roar_server_info_to_mes: the bytes of the message and its data length; it fails only
      when they do not fit the message buffer and the caller takes no separate data. */
  method ToMes(info: Info, takesData: bool) returns (r: int, mesdata: array<byte>, datalen: nat)
    ensures datalen == 4 + 4 * |Entries(info, 11)| + |Texts(Entries(info, 11))|
    ensures r == if datalen > MSGDATA && !takesData then -1 else 0
    ensures r == 0 ==> mesdata[..] == Message(Entries(info, 11)) && mesdata.Length == datalen
  {
    hide Be16, Index, Texts;
    NoIndex();
    var needlen: nat := 4;
    var iebuf: seq<Entry> := [];
    for n := 0 to 11
      invariant iebuf == Entries(info, n)
      invariant needlen == 4 + 4 * |iebuf| + |Texts(iebuf)|
    {
      var t := ORDER[n];
      if Filled(info, t) {
        TextsSnoc(iebuf, Entry(t, info[t].value));
        iebuf := iebuf + [Entry(t, info[t].value)];
        needlen := needlen + 4 + |info[t].value|;
      }
    }
    datalen := needlen;
    if needlen > MSGDATA && !takesData {
      mesdata := new byte[0];
      return -1, mesdata, datalen;
    }
    var idx := |iebuf|;
    mesdata := new byte[needlen](i => 0);
    assert mesdata[..2] == [0, 0];
    PutHalf(mesdata, 2, idx);
    assert mesdata[..4] == [0, 0] + Be16(idx);
    PutIndex(mesdata, iebuf);
    PutTexts(mesdata, iebuf);
    assert mesdata[..needlen] == mesdata[..];
    r := 0;
  }

  lemma NoIndex()
    ensures Index([]) == [] && Texts([]) == []
  {
  }

  lemma TextsSnoc(es: seq<Entry>, e: Entry)
    ensures Texts(es + [e]) == Texts(es) + e.text
    ensures Index(es + [e]) == Index(es) + Be16(e.kind % 0x100) + Be16(|e.text|)
  {
    assert (es + [e])[..|es|] == es;
  }

  method PutIndex(mesdata: array<byte>, es: seq<Entry>)
    requires mesdata.Length == 4 + 4 * |es| + |Texts(es)|
    modifies mesdata
    ensures mesdata[..4 + 4 * |es|] == old(mesdata[..4]) + Index(es)
  {
    hide Be16, Index, Texts;
    NoIndex();
    var dptr := 4;
    for i := 0 to |es|
      invariant dptr == 4 + 4 * i
      invariant mesdata[..dptr] == old(mesdata[..4]) + Index(es[..i])
    {
      assert es[..i + 1] == es[..i] + [es[i]];
      TextsSnoc(es[..i], es[i]);
      PutHalf(mesdata, dptr, es[i].kind % 0x100);
      PutHalf(mesdata, dptr + 2, |es[i].text|);
      dptr := dptr + 4;
    }
    assert es[..|es|] == es;
  }

  method PutTexts(mesdata: array<byte>, es: seq<Entry>)
    requires mesdata.Length == 4 + 4 * |es| + |Texts(es)|
    modifies mesdata
    ensures mesdata[..] == old(mesdata[..4 + 4 * |es|]) + Texts(es)
  {
    hide Texts;
    NoIndex();
    var textpart := 4 + 4 * |es|;
    for i := 0 to |es|
      invariant textpart == 4 + 4 * |es| + |Texts(es[..i])| <= mesdata.Length
      invariant mesdata[..textpart] == old(mesdata[..4 + 4 * |es|]) + Texts(es[..i])
    {
      assert es[..i + 1] == es[..i] + [es[i]];
      TextsSnoc(es[..i], es[i]);
      TextsAt(es, i);
      PutBytes(mesdata, textpart, es[i].text);
      textpart := textpart + |es[i].text|;
    }
    assert es[..|es|] == es;
    assert mesdata[..textpart] == mesdata[..];
  }

  /** The size of the record: eleven pointers of eight bytes. */
  const RECORD := 88

  /** roar_server_info_from_mes on the first datalen bytes; None stands for NULL. The texts and
      their terminators, written behind the record up to end, fit the memory set aside. */
  method FromMes(mesdata: array<byte>, datalen: nat) returns (ret: Option<Info>, end: nat)
    requires datalen <= mesdata.Length
    ensures ret == Parse(mesdata[..datalen])
    ensures end <= 2 * RECORD + datalen
  {
    hide Half, Store, TextAt;
    var b := mesdata[..datalen];
    end := RECORD;
    var needlen := 4;
    if datalen < needlen {
      return None, end;
    }
    if mesdata[0] != 0 {
      return None, end;
    }
    if mesdata[1] != 0 {
      return None, end;
    }
    var idx := Half(b, 2);
    if idx > FIELDS {
      return None, end;
    }
    needlen := needlen + 4 * idx;
    if datalen < needlen {
      return None, end;
    }
    TextStart(b, idx);
    var textpart := 4 + 4 * idx;
    var types, offsets: seq<nat> := [], [textpart];
    for i := 0 to idx
      invariant needlen == textpart == TextAt(b, idx, i)
      invariant |types| == i && |offsets| == i + 1
      invariant forall j :: 0 <= j < i ==> types[j] == Kind(b, j)
      invariant forall j :: 0 <= j <= i ==> offsets[j] == TextAt(b, idx, j)
    {
      TextNext(b, idx, i);
      types := types + [Half(b, 4 + 4 * i) % 0x100];
      needlen := needlen + Half(b, 6 + 4 * i);
      textpart := textpart + Half(b, 6 + 4 * i);
      offsets := offsets + [textpart];
    }
    if datalen < needlen {
      return None, end;
    }
    var info := EMPTY;
    for i := 0 to idx
      invariant info == Filling(b, idx, i)
      invariant end <= RECORD + TextAt(b, idx, i) - 4 - 4 * idx + i
    {
      TextWithin(b, idx, i + 1);
      var text := b[offsets[i]..offsets[i + 1]];
      if |text| != 0 && !(|text| == 1 && text[0] == 0) && types[i] < 11 {
        end := end + |text| + 1;
      }
      info := Store(info, types[i], text);
    }
    ret := Some(info);
  }

  lemma TextStart(b: seq<byte>, idx: nat)
    requires 4 + 4 * idx <= |b|
    ensures TextAt(b, idx, 0) == 4 + 4 * idx
  {
  }

  lemma TextNext(b: seq<byte>, idx: nat, i: nat)
    requires i < idx && 4 + 4 * idx <= |b|
    ensures TextAt(b, idx, i + 1) == TextAt(b, idx, i) + Half(b, 6 + 4 * i)
  {
  }

  /** A record written and read back. */
  method ThereAndBack(info: Info) returns (back: Option<Info>)
    requires CStrings(info)
    ensures back == Some(NonEmpty(info)) <==> Proper(info)
  {
    hide Message, Parse, Entries, Texts, Proper, CStrings;
    var r, mesdata, datalen := ToMes(info, true);
    var end;
    back, end := FromMes(mesdata, datalen);
    assert mesdata[..datalen] == mesdata[..];
    RoundTripIff(info);
  }
}

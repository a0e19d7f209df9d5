/** The text form of a list of storage updates, `offset@data@offset@data...` in hexadecimal. */
module StorageUpdates {
  import opened Bytes
  import opened Wrappers
  import opened Seqs
  import opened Hex
  import opened CallData

  datatype StorageUpdate = StorageUpdate(offset: Bytes, data: Bytes)

  /** The offsets and data of a list, one after the other. */
  function Flat(updates: seq<StorageUpdate>): (r: seq<Bytes>)
    ensures |r| == 2 * |updates|
    ensures updates != [] ==> r[0] == updates[0].offset
  {
    if updates == [] then []
    else
      var last := updates[|updates| - 1];
      Flat(updates[..|updates| - 1]) + [last.offset, last.data]
  }

  function Print(updates: seq<StorageUpdate>): Bytes {
    Join(EncodeAll(Flat(updates)), AT)
  }

  function TrimLeadingSeparator(text: Bytes): Bytes {
    if text != [] && text[0] == AT then text[1..] else text
  }

  /** Reads the tokens two by two. */
  function ReadPairs(tokens: seq<Bytes>): Result<seq<StorageUpdate>>
    requires |tokens| % 2 == 0
  {
    if tokens == [] then Ok([])
    else
      var last := |tokens| - 2;
      var before := ReadPairs(tokens[..last]);
      if before.Err? then before else
      var offset := Decode(tokens[last]);
      if offset.Err? then Err(ErrTokenizeFailed) else
      var data := Decode(tokens[last + 1]);
      if data.Err? then Err(ErrTokenizeFailed) else Ok(before.value + [StorageUpdate(offset.value, data.value)])
  }

  function Updates(text: Bytes): Result<seq<StorageUpdate>> {
    var tokens := Split(TrimLeadingSeparator(text), AT);
    if tokens[0] == [] then Err(ErrTokenizeFailed)
    else if |tokens| % 2 != 0 then Err(ErrInvalidDataString)
    else ReadPairs(tokens)
  }

  lemma {:induction false} ReadPairsStops(tokens: seq<Bytes>, i: nat)
    requires |tokens| % 2 == 0 && i % 2 == 0 && i <= |tokens| && ReadPairs(tokens[..i]).Err?
    ensures ReadPairs(tokens) == ReadPairs(tokens[..i])
  {
    if i == |tokens| {
      assert tokens[..i] == tokens;
    } else {
      assert tokens[..|tokens| - 2][..i] == tokens[..i];
      ReadPairsStops(tokens[..|tokens| - 2], i);
    }
  }

  method GetStorageUpdates(text: Bytes) returns (r: Result<seq<StorageUpdate>>)
    ensures r == Updates(text)
  {
    var tokens := Split(TrimLeadingSeparator(text), AT);
    if tokens[0] == [] {
      return Err(ErrTokenizeFailed);
    }
    if |tokens| % 2 != 0 {
      return Err(ErrInvalidDataString);
    }
    var updates := [];
    var i := 0;
    while i < |tokens|
      invariant 0 <= i <= |tokens| && i % 2 == 0
      invariant ReadPairs(tokens[..i]) == Ok(updates)
    {
      assert tokens[..i + 2][..i] == tokens[..i];
      var offset := Decode(tokens[i]);
      if offset.Err? {
        ReadPairsStops(tokens, i + 2);
        return Err(ErrTokenizeFailed);
      }
      var data := Decode(tokens[i + 1]);
      if data.Err? {
        ReadPairsStops(tokens, i + 2);
        return Err(ErrTokenizeFailed);
      }
      updates := updates + [StorageUpdate(offset.value, data.value)];
      i := i + 2;
    }
    assert tokens[..i] == tokens;
    return Ok(updates);
  }

  lemma PrintSnoc(updates: seq<StorageUpdate>, last: StorageUpdate)
    ensures Print(updates + [last]) ==
            Print(updates) + (if updates == [] then [] else [AT]) + Encode(last.offset) + [AT] + Encode(last.data)
  {
    hide Encode;
    var head := EncodeAll(Flat(updates));
    assert (updates + [last])[..|updates|] == updates;
    assert EncodeAll(Flat(updates + [last])) == head + [Encode(last.offset)] + [Encode(last.data)];
    JoinSnoc(head + [Encode(last.offset)], Encode(last.data));
    if updates == [] {
      assert head + [Encode(last.offset)] == [Encode(last.offset)];
    } else {
      JoinSnoc(head, Encode(last.offset));
    }
  }

  /** The loop writes a separator after every update except the last one of the list. */
  method CreateDataFromStorageUpdate(updates: seq<StorageUpdate>) returns (text: Bytes)
    ensures text == Print(updates)
  {
    hide Print, Encode;
    text := [];
    PrintNothing();
    for i := 0 to |updates|
      invariant text == Print(updates[..i]) + if 0 < i < |updates| then [AT] else []
    {
      assert updates[..i + 1] == updates[..i] + [updates[i]];
      PrintSnoc(updates[..i], updates[i]);
      text := text + Encode(updates[i].offset) + [AT] + Encode(updates[i].data);
      if i < |updates| - 1 {
        text := text + [AT];
      }
    }
    assert updates[..|updates|] == updates;
  }

  lemma PrintNothing()
    ensures Print([]) == []
  {
  }

  lemma ReadPairsSnoc(tokens: seq<Bytes>, before: seq<StorageUpdate>, last: StorageUpdate)
    requires |tokens| % 2 == 0 && ReadPairs(tokens) == Ok(before)
    ensures ReadPairs(tokens + [Encode(last.offset)] + [Encode(last.data)]) == Ok(before + [last])
  {
    hide Encode, Decode;
    var all := tokens + [Encode(last.offset)] + [Encode(last.data)];
    assert all[..|all| - 2] == tokens;
    DecodeEncode(last.offset);
    DecodeEncode(last.data);
  }

  lemma {:induction false} ReadPairsOfFlat(updates: seq<StorageUpdate>)
    ensures ReadPairs(EncodeAll(Flat(updates))) == Ok(updates)
  {
    hide Encode, EncodeAll;
    if updates == [] {
      assert Flat(updates) == [];
    } else {
      hide ReadPairs;
      var init, last := updates[..|updates| - 1], updates[|updates| - 1];
      ReadPairsOfFlat(init);
      EncodeAllSnoc(Flat(init), last.offset);
      EncodeAllSnoc(Flat(init) + [last.offset], last.data);
      assert Flat(init) + [last.offset] + [last.data] == Flat(init) + [last.offset, last.data];
      ReadPairsSnoc(EncodeAll(Flat(init)), init, last);
      assert updates == init + [last];
    }
  }

  lemma PrintSplits(updates: seq<StorageUpdate>)
    requires updates != []
    ensures Split(Print(updates), AT) == EncodeAll(Flat(updates))
  {
    var tokens := EncodeAll(Flat(updates));
    forall i | 0 <= i < |tokens| ensures Free(tokens[i], AT) {
      DecodeEncode(Flat(updates)[i]);
    }
    SplitJoin(tokens, AT);
  }

  /**
   * Reading undoes printing exactly for the non-empty lists whose first offset is not empty.
   * Every other list reads as an error, never as other updates.
   */
  lemma UpdatesRoundTrip(updates: seq<StorageUpdate>)
    ensures Updates(Print(updates)) == Ok(updates) <==> updates != [] && updates[0].offset != []
    ensures Updates(Print(updates)).Err? <==> updates == [] || updates[0].offset == []
  {
    hide ReadPairs, Encode, Decode, EncodeAll, Flat, Split, Join, FirstIndex;
    if updates == [] {
      PrintNothing();
      SplitFree<byte>([], AT);
    } else {
      var tokens := EncodeAll(Flat(updates));
      PrintSplits(updates);
      DecodeEncode(updates[0].offset);
      FirstToken(updates);
      assert tokens == [tokens[0]] + tokens[1..];
      JoinHead(tokens[0], tokens[1..]);
      if updates[0].offset != [] {
        FirstByteOfHex(updates[0].offset);
        ReadPairsOfFlat(updates);
      } else {
        LostOffset(tokens);
      }
    }
  }

  lemma FirstToken(updates: seq<StorageUpdate>)
    requires updates != []
    ensures EncodeAll(Flat(updates))[0] == Encode(updates[0].offset)
  {
  }

  lemma FirstByteOfHex(s: Bytes)
    requires s != []
    ensures Encode(s) != [] && Encode(s)[0] != AT
  {
  }

  /** Without the leading separator an odd number of parts is left. */
  lemma LostOffset(tokens: seq<Bytes>)
    requires |tokens| % 2 == 0 && |tokens| > 0 && tokens[0] == []
    requires Split(Join(tokens, AT), AT) == tokens
    ensures Updates(Join(tokens, AT)).Err?
  {
    hide ReadPairs, Split, Join, FirstIndex;
    var text, rest := Join(tokens, AT), tokens[1..];
    assert tokens == [[]] + rest;
    JoinHead([], rest);
    assert text == [] + [AT] + Join(rest, AT);
    assert TrimLeadingSeparator(text) == Join(rest, AT);
    SplitCons([], AT, Join(rest, AT));
    assert Split(Join(rest, AT), AT) == rest;
  }
}

/** The two byte-budget truncators: the runtime's, run on a tool result before it is recorded, and the
    renderer's, run again when the result is printed. */
module Truncation {
  import opened Prelude
  import opened Utf8
  import opened ToolResults

  /** What is left of a budget after `used` bytes. */
  function Left(max: nat, used: nat): nat {
    if used < max then max - used else 0
  }

  /** The lines the runtime keeps from the rest of a list, `used` bytes into the budget. */
  function RuntimeKeep(items: seq<string>, max: nat, used: nat, first: bool): seq<string> {
    if items == [] then []
    else
      var start := if first then used else used + 1;
      var room := Left(max, start);
      if room == 0 then []
      else if ByteLen(items[0]) <= room then
        [items[0]] + RuntimeKeep(items[1..], max, start + ByteLen(items[0]), false)
      else if Prefix(items[0], room) == "" then []
      else [Prefix(items[0], room)]
  }

  /** The lines the renderer keeps: it skips lines that would come out empty and carries on past a cut. */
  function RenderKeep(items: seq<string>, max: nat, used: nat, first: bool): (r: seq<string>)
    ensures "" !in r
  {
    if items == [] then []
    else
      var start := if first then used else used + 1;
      var room := Left(max, start);
      if room == 0 then []
      else
        var cut := Prefix(items[0], room);
        if cut == "" then RenderKeep(items[1..], max, used, first)
        else [cut] + RenderKeep(items[1..], max, start + ByteLen(cut), false)
  }

  // ---- the loops

  lemma RuntimeKeepAt(items: seq<string>, i: nat, max: nat, used: nat, first: bool)
    requires i < |items|
    ensures RuntimeKeep(items[i..], max, used, first) ==
            var start := if first then used else used + 1;
            var room := Left(max, start);
            if room == 0 then []
            else if ByteLen(items[i]) <= room then
              [items[i]] + RuntimeKeep(items[i + 1..], max, start + ByteLen(items[i]), false)
            else if Prefix(items[i], room) == "" then []
            else [Prefix(items[i], room)]
  {
    hide ByteLen; hide Fit;
    assert items[i..][1..] == items[i + 1..];
  }

  lemma RenderKeepAt(items: seq<string>, i: nat, max: nat, used: nat, first: bool)
    requires i < |items|
    ensures RenderKeep(items[i..], max, used, first) ==
            var start := if first then used else used + 1;
            var room := Left(max, start);
            if room == 0 then []
            else
              var cut := Prefix(items[i], room);
              if cut == "" then RenderKeep(items[i + 1..], max, used, first)
              else [cut] + RenderKeep(items[i + 1..], max, start + ByteLen(cut), false)
  {
    hide ByteLen; hide Fit;
    assert items[i..][1..] == items[i + 1..];
  }

  lemma KeepsNothingMore(items: seq<string>, max: nat, used: nat, first: bool)
    ensures RuntimeKeep(items[|items|..], max, used, first) == []
    ensures RenderKeep(items[|items|..], max, used, first) == []
    ensures JoinedLen([]) == 0
  {
  }

  method TruncateStringListRuntime(items: seq<string>, max: nat) returns (kept: seq<string>, keptBytes: nat)
    ensures kept == RuntimeKeep(items, max, 0, true)
    ensures keptBytes == JoinedLen(kept) <= max
  {
    hide ByteLen; hide Join; hide Fit; hide RuntimeKeep; hide JoinedLen; hide Prefix;
    kept, keptBytes := [], 0;
    KeepsNothingMore(items, max, 0, true);
    for index := 0 to |items|
      invariant |kept| == index
      invariant keptBytes == JoinedLen(kept) <= max
      invariant RuntimeKeep(items, max, 0, true) == kept + RuntimeKeep(items[index..], max, keptBytes, index == 0)
    {
      var separator := if index > 0 then 1 else 0;
      var remaining := Left(max, keptBytes + separator);
      RuntimeKeepAt(items, index, max, keptBytes, index == 0);
      if remaining == 0 {
        return;
      }
      JoinedLenSnoc(kept, items[index]);
      if ByteLen(items[index]) <= remaining {
        kept := kept + [items[index]];
        keptBytes := keptBytes + separator + ByteLen(items[index]);
        continue;
      }
      var end := ForwardCut(items[index], remaining);
      PrefixIsLongest(items[index], remaining);
      EmptyIffZero(Prefix(items[index], remaining));
      if end > 0 {
        var cut := SliceAt(items[index], end, remaining);
        JoinedLenSnoc(kept, cut);
        kept := kept + [cut];
        keptBytes := keptBytes + separator + end;
      }
      return;
    }
    KeepsNothingMore(items, max, keptBytes, |items| == 0);
  }

  /** Slicing at the end a scan found gives the longest prefix. */
  function SliceAt(value: string, end: nat, ghost remaining: nat): (r: string)
    requires end == ByteLen(Prefix(value, remaining))
    ensures r == Prefix(value, remaining)
  {
    PrefixEndsAtBoundary(value, Fit(value, remaining));
    BoundaryEndsPrefix(value, end);
    PrefixIsLongest(value, remaining);
    SameLengthPrefix(value, end, remaining);
    SliceTo(value, end)
  }

  method TruncateStringListRender(items: seq<string>, max: nat) returns (kept: seq<string>, keptBytes: nat)
    ensures kept == RenderKeep(items, max, 0, true)
    ensures keptBytes == JoinedLen(kept) <= max
  {
    hide ByteLen; hide Join; hide Fit; hide RenderKeep; hide JoinedLen; hide Prefix;
    kept, keptBytes := [], 0;
    KeepsNothingMore(items, max, 0, true);
    for index := 0 to |items|
      invariant keptBytes == JoinedLen(kept) <= max
      invariant RenderKeep(items, max, 0, true) == kept + RenderKeep(items[index..], max, keptBytes, kept == [])
    {
      var separator := if kept != [] then 1 else 0;
      var remaining := Left(max, keptBytes + separator);
      RenderKeepAt(items, index, max, keptBytes, kept == []);
      if remaining == 0 {
        return;
      }
      PrefixIsLongest(items[index], remaining);
      var cut := TruncateStringValue(items[index], remaining);
      var truncated := if cut.Some? then cut.value else items[index];
      if truncated == "" {
        continue;
      }
      JoinedLenSnoc(kept, truncated);
      kept := kept + [truncated];
      keptBytes := keptBytes + separator + ByteLen(truncated);
    }
    KeepsNothingMore(items, max, keptBytes, kept == []);
  }

  // ---- what is kept

  /** Bytes used once `kept` has been appended after `used` bytes. */
  function UsedAfter(used: nat, first: bool, kept: seq<string>): nat {
    used + (if first || kept == [] then 0 else 1) + JoinedLen(kept)
  }

  /** What the runtime keeps, joined, is a prefix of the original joined. */
  lemma {:induction false} RuntimeKeepsPrefix(items: seq<string>, max: nat, used: nat, first: bool)
    ensures Join(RuntimeKeep(items, max, used, first)) <= Join(items)
  {
    hide ByteLen; hide Fit;
    if items == [] {
    } else {
      var start := if first then used else used + 1;
      var room := Left(max, start);
      if 0 < room && ByteLen(items[0]) <= room {
        var rest := RuntimeKeep(items[1..], max, start + ByteLen(items[0]), false);
        RuntimeKeepsPrefix(items[1..], max, start + ByteLen(items[0]), false);
        JoinPrefix(items[0], rest, items[1..]);
        assert items == [items[0]] + items[1..];
      } else if 0 < room {
        JoinPrefix(items[0], [], items[1..]);
        assert items == [items[0]] + items[1..];
      }
    }
  }

  lemma JoinPrefix(x: string, kept: seq<string>, items: seq<string>)
    requires Join(kept) <= Join(items) && (items == [] ==> kept == [])
    ensures Join([x] + kept) <= Join([x] + items)
    ensures x <= Join([x] + items)
  {
    assert ([x] + kept)[1..] == kept && ([x] + items)[1..] == items;
  }

  /** If the runtime drops anything, the budget is used up to one character and one separator. */
  lemma {:induction false} RuntimeWastesLittle(items: seq<string>, max: nat, used: nat, first: bool)
    ensures RuntimeKeep(items, max, used, first) != items ==>
              UsedAfter(used, first, RuntimeKeep(items, max, used, first)) + 4 >= max
  {
    assert ByteLen("") == 0;
    hide ByteLen; hide Fit; hide Join;
    if items == [] {
    } else {
      var start := if first then used else used + 1;
      var room := Left(max, start);
      PrefixIsLongest(items[0], room);
      if 0 < room && ByteLen(items[0]) <= room {
        var rest := RuntimeKeep(items[1..], max, start + ByteLen(items[0]), false);
        RuntimeWastesLittle(items[1..], max, start + ByteLen(items[0]), false);
        assert items == [items[0]] + items[1..];
        assert ([items[0]] + rest)[1..] == rest;
      }
    }
  }

  // ---- when the two truncators agree

  /** No line starts with a character that fits in the room left after `used` bytes. */
  predicate NothingFits(items: seq<string>, max: nat, used: nat, first: bool) {
    var room := Left(max, if first then used else used + 1);
    forall i | 0 <= i < |items| :: items[i] == "" || CharLen(items[i][0]) > room
  }

  lemma {:induction false} RenderKeepsNothingIff(items: seq<string>, max: nat, used: nat, first: bool)
    ensures RenderKeep(items, max, used, first) == [] <==> NothingFits(items, max, used, first)
  {
    if items == [] {
    } else {
      RenderKeepsNothingIff(items[1..], max, used, first);
      assert forall i | 0 < i < |items| :: items[i] == items[1..][i - 1];
    }
  }

  /** The first lines, up to the one that overflows the budget, are not empty, and past the cut no
      later line starts with a character that still fits. */
  predicate SameCut(items: seq<string>, max: nat, used: nat, first: bool) {
    items == [] ||
    var start := if first then used else used + 1;
    var room := Left(max, start);
    if room == 0 then true
    else if items[0] == "" then false
    else if ByteLen(items[0]) <= room then SameCut(items[1..], max, start + ByteLen(items[0]), false)
    else
      var cut := Prefix(items[0], room);
      if cut == "" then NothingFits(items[1..], max, used, first)
      else NothingFits(items[1..], max, start + ByteLen(cut), false)
  }

  /** The truncators return the same lines exactly when the list meets `SameCut`. */
  lemma {:induction false} TruncatorsAgreeIff(items: seq<string>, max: nat, used: nat, first: bool)
    ensures RuntimeKeep(items, max, used, first) == RenderKeep(items, max, used, first) <==>
            SameCut(items, max, used, first)
  {
    hide NothingFits; hide ByteLen; hide Fit; hide Prefix; hide RuntimeKeep; hide RenderKeep;
    if items == [] {
      KeepsNothingMore(items, max, used, first);
      assert items[0..] == items;
    } else {
      var start := if first then used else used + 1;
      var room := Left(max, start);
      var cut := Prefix(items[0], room);
      PrefixIsLongest(items[0], room);
      assert items[0..] == items;
      RuntimeKeepAt(items, 0, max, used, first);
      RenderKeepAt(items, 0, max, used, first);
      if room == 0 {
      } else if items[0] == "" {
        assert ByteLen("") == 0 by { EmptyIffZero(""); }
        assert RuntimeKeep(items, max, used, first)[0] == "";
      } else if ByteLen(items[0]) <= room {
        TruncatorsAgreeIff(items[1..], max, start + ByteLen(items[0]), false);
        var a := RuntimeKeep(items[1..], max, start + ByteLen(items[0]), false);
        var b := RenderKeep(items[1..], max, start + ByteLen(items[0]), false);
        assert ([items[0]] + a)[1..] == a && ([items[0]] + b)[1..] == b;
      } else if cut == "" {
        RenderKeepsNothingIff(items[1..], max, used, first);
      } else {
        RenderKeepsNothingIff(items[1..], max, start + ByteLen(cut), false);
        var b := RenderKeep(items[1..], max, start + ByteLen(cut), false);
        assert |[cut] + b| == 1 + |b|;
      }
    }
  }

  predicate Ascii(s: string) {
    forall i | 0 <= i < |s| :: s[i] as int < 0x80
  }

  lemma {:induction false} AsciiFillsRoom(s: string, room: nat)
    requires Ascii(s) && ByteLen(s) > room
    ensures ByteLen(Prefix(s, room)) == room
  {
    if room > 0 {
      AsciiFillsRoom(s[1..], room - 1);
      assert Prefix(s, room) == [s[0]] + Prefix(s[1..], room - 1);
    }
  }

  /** Lists of non-empty ASCII lines are always cut the same way. */
  lemma {:induction false} AsciiListsAgree(items: seq<string>, max: nat, used: nat, first: bool)
    requires forall i | 0 <= i < |items| :: items[i] != "" && Ascii(items[i])
    ensures SameCut(items, max, used, first)
    ensures RuntimeKeep(items, max, used, first) == RenderKeep(items, max, used, first)
  {
    if items == [] {
    } else {
      var start := if first then used else used + 1;
      var room := Left(max, start);
      if room > 0 && ByteLen(items[0]) > room {
        AsciiFillsRoom(items[0], room);
      } else if room > 0 {
        AsciiListsAgree(items[1..], max, start + ByteLen(items[0]), false);
      }
    }
    TruncatorsAgreeIff(items, max, used, first);
  }
}

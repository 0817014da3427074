/** The frame: the pixels of one exposure keyed by their number within the frame, plus
    the capture time and the running time, as `Frame<int>`. */
module Frames {
  import Pixels
  import opened Numerals

  /** A time in seconds. The reader stores `atof` of a token of the log; the model keeps
      the token itself and does not interpret it. `Zero` is the default 0.0. */
  datatype Seconds = Zero | Parsed(text: string)

  /** The value held by a frame: what the reader yields and what a copy duplicates. */
  datatype FrameValue = FrameValue(pixels: map<nat, Pixels.Pixel>, time: Seconds, runningTime: Seconds)

  /** The value of a default-constructed frame. */
  const EmptyFrame := FrameValue(map[], Zero, Zero)

  class Frame {
    var pixels: map<nat, Pixels.Pixel>
    var time: Seconds
    var runningTime: Seconds

    function Value(): FrameValue
      reads this
    {
      FrameValue(pixels, time, runningTime)
    }

    /** The default constructor: no pixels and both times zero. */
    constructor ()
      ensures Value() == EmptyFrame
    {
      pixels, time, runningTime := map[], Zero, Zero;
    }

    constructor FromParts(pixels: map<nat, Pixels.Pixel>, time: Seconds, runningTime: Seconds)
      ensures Value() == FrameValue(pixels, time, runningTime)
    {
      this.pixels, this.time, this.runningTime := pixels, time, runningTime;
    }

    /** The copy constructor. */
    constructor Copy(other: Frame)
      ensures Value() == other.Value()
    {
      pixels, runningTime, time := other.pixels, other.runningTime, other.time;
    }

    /** `getPixels`: the whole pixel map; reading it leaves the frame as it was. */
    function GetPixels(): (m: map<nat, Pixels.Pixel>)
      reads this
      ensures m.Keys == pixels.Keys && forall k :: k in m ==> m[k] == pixels[k]
    {
      pixels
    }

    /** `getPixel`, as documented: the stored pixel for a present key and the default pixel
        for an absent one. The frame must hold at least one pixel. */
    function GetPixel(key: nat): (p: Pixels.Pixel)
      reads this
      requires pixels != map[]
      ensures key in pixels ==> p == pixels[key]
      ensures key !in pixels ==> p == Pixels.Origin
    {
      if key in pixels then pixels[key] else Pixels.Origin
    }

    function GetTime(): (t: Seconds)
      reads this
      ensures t == time
    {
      time
    }

    function GetRunningTime(): (t: Seconds)
      reads this
      ensures t == runningTime
    {
      runningTime
    }

    /** `setPixel`: inserts or overwrites the pixel at `key`; every other key keeps its pixel. */
    method SetPixel(key: nat, pixel: Pixels.Pixel)
      modifies this`pixels
      ensures pixels == old(pixels)[key := pixel]
    {
      pixels := pixels[key := pixel];
    }

    method SetTime(t: Seconds)
      modifies this`time
      ensures time == t
    {
      time := t;
    }

    method SetRunningTime(t: Seconds)
      modifies this`runningTime
      ensures runningTime == t
    {
      runningTime := t;
    }

    /** `operator=`, written as a swap: the target receives the source's contents and the
        source receives the target's old contents. */
    method Assign(other: Frame)
      modifies this, other
      ensures Value() == old(other.Value())
      ensures other.Value() == old(Value())
    {
      Swap(this, other);
    }

    /** The pixel-listing part of `operator<<`: one entry per pixel in ascending key order. */
    method RenderPixels() returns (text: string)
      ensures text == PixelListing(pixels)
    {
      text := "";
      var rest := pixels;
      while rest != map[]
        invariant text + PixelListing(rest) == PixelListing(pixels)
        decreases rest.Keys
      {
        ghost var least := MinKey(rest.Keys);
        var k :| k in rest.Keys && forall j :: j in rest.Keys ==> k <= j;
        ListingNext(text, rest, k, PixelListing(pixels));
        text, rest := text + Entry(k, rest[k]), rest - {k};
      }
      EmptyListing(rest, text);
    }
  }

  /** `swap`: exchanges pixels, running time and time of two frames (a no-op when both are
      the same frame). */
  method Swap(first: Frame, second: Frame)
    modifies first, second
    ensures first.Value() == old(second.Value())
    ensures second.Value() == old(first.Value())
  {
    var pixels := first.pixels;
    first.pixels := second.pixels;
    second.pixels := pixels;
    var runningTime := first.runningTime;
    first.runningTime := second.runningTime;
    second.runningTime := runningTime;
    var time := first.time;
    first.time := second.time;
    second.time := time;
  }

  /** Swapping twice gives both frames back their own contents. */
  method SwapTwiceRestores(first: Frame, second: Frame)
    modifies first, second
    ensures first.Value() == old(first.Value()) && second.Value() == old(second.Value())
  {
    Swap(first, second);
    Swap(first, second);
  }

  /** One entry of the listing: the key line, then the pixel's own rendering. */
  function Entry(key: nat, p: Pixels.Pixel): string
  {
    "No. " + NaturalText(key) + " Pixel:\n" + Pixels.Render(p)
  }

  ghost function MinKey(keys: set<nat>): (k: nat)
    requires keys != {}
    ensures k in keys && forall j :: j in keys ==> k <= j
  {
    var x :| x in keys;
    var rest := keys - {x};
    assert forall j :: j in keys ==> j == x || j in rest;
    if rest == {} then x
    else
      var m := MinKey(rest);
      if x <= m then x else m
  }

  /** The keys in ascending order, as a `std::map` iterates them. */
  ghost function SortedKeys(keys: set<nat>): (ks: seq<nat>)
    ensures forall i, j :: 0 <= i < j < |ks| ==> ks[i] < ks[j]
    ensures forall k :: k in ks <==> k in keys
  {
    if keys == {} then []
    else
      var k := MinKey(keys);
      [k] + SortedKeys(keys - {k})
  }

  ghost function Listing(m: map<nat, Pixels.Pixel>, ks: seq<nat>): string
    requires forall k :: k in ks ==> k in m
  {
    if ks == [] then "" else Entry(ks[0], m[ks[0]]) + Listing(m, ks[1..])
  }

  /** What the pixel-listing part of `operator<<` writes for a pixel map. */
  ghost function PixelListing(m: map<nat, Pixels.Pixel>): string
  {
    Listing(m, SortedKeys(m.Keys))
  }

  /** One step of the listing loop: emitting the least key's entry leaves the rest to list. */
  lemma ListingNext(text: string, m: map<nat, Pixels.Pixel>, k: nat, total: string)
    requires k in m.Keys && forall j :: j in m.Keys ==> k <= j
    requires text + PixelListing(m) == total
    ensures (text + Entry(k, m[k])) + PixelListing(m - {k}) == total
    ensures (m - {k}).Keys < m.Keys
  {
    ListingStep(m, k);
    AppendAssociates(text, Entry(k, m[k]), PixelListing(m - {k}));
    assert (m - {k}).Keys == m.Keys - {k};
  }

  lemma AppendAssociates(a: string, b: string, c: string)
    ensures a + (b + c) == (a + b) + c
  {
  }

  /** An empty pixel map lists as nothing. */
  lemma EmptyListing(m: map<nat, Pixels.Pixel>, text: string)
    requires m == map[]
    ensures text + PixelListing(m) == text
  {
    assert m.Keys == {};
    assert SortedKeys(m.Keys) == [];
  }

  lemma {:induction false} ListingAgrees(m: map<nat, Pixels.Pixel>, m': map<nat, Pixels.Pixel>, ks: seq<nat>)
    requires forall k :: k in ks ==> k in m && k in m' && m[k] == m'[k]
    ensures Listing(m, ks) == Listing(m', ks)
  {
    if ks != [] {
      ListingAgrees(m, m', ks[1..]);
    }
  }

  /** The listing starts with the entry of the least key. */
  lemma ListingStep(m: map<nat, Pixels.Pixel>, k: nat)
    requires k in m.Keys && forall j :: j in m.Keys ==> k <= j
    ensures PixelListing(m) == Entry(k, m[k]) + PixelListing(m - {k})
  {
    assert MinKey(m.Keys) == k;
    assert (m - {k}).Keys == m.Keys - {k};
    var tail := SortedKeys(m.Keys - {k});
    var ks := [k] + tail;
    assert ks[1..] == tail;
    ListingAgrees(m, m - {k}, tail);
  }

  /** Any ascending enumeration of a key set is the one `SortedKeys` gives. */
  lemma {:induction false} SortedKeysUnique(keys: set<nat>, ks: seq<nat>)
    requires forall i, j :: 0 <= i < j < |ks| ==> ks[i] < ks[j]
    requires forall k :: k in ks <==> k in keys
    ensures SortedKeys(keys) == ks
  {
    if ks == [] {
      assert forall k :: k !in keys;
      assert keys == {};
    } else {
      EnumerationStartsAtLeast(keys, ks);
      EnumerationTail(keys, ks);
      var least := ks[0];
      SortedKeysUnique(keys - {least}, ks[1..]);
      assert ks == [least] + ks[1..];
    }
  }

  /** An ascending enumeration starts with the least key. */
  lemma EnumerationStartsAtLeast(keys: set<nat>, ks: seq<nat>)
    requires ks != []
    requires forall i, j :: 0 <= i < j < |ks| ==> ks[i] < ks[j]
    requires forall k :: k in ks <==> k in keys
    ensures keys != {} && ks[0] == MinKey(keys)
  {
    assert ks[0] in ks;
    var least := MinKey(keys);
    var i :| 0 <= i < |ks| && ks[i] == least;
    assert ks[0] <= ks[i];
  }

  /** The rest of an ascending enumeration enumerates the keys other than the least. */
  lemma EnumerationTail(keys: set<nat>, ks: seq<nat>)
    requires ks != []
    requires forall i, j :: 0 <= i < j < |ks| ==> ks[i] < ks[j]
    requires forall k :: k in ks <==> k in keys
    ensures forall k :: k in ks[1..] <==> k in keys - {ks[0]}
  {
    forall k
      ensures k in ks[1..] <==> k in keys - {ks[0]}
    {
      if k in ks[1..] {
        var i :| 1 <= i < |ks| && ks[i] == k;
        assert ks[0] < ks[i];
      }
      if k in keys - {ks[0]} {
        var i :| 0 <= i < |ks| && ks[i] == k;
        assert i != 0;
        assert ks[1..][i - 1] == k;
      }
    }
  }

  /** The keys `lo`, `lo + 1`, ..., `lo + n - 1`. */
  function Range(lo: nat, n: nat): (ks: seq<nat>)
    ensures |ks| == n && forall i :: 0 <= i < n ==> ks[i] == lo + i
    decreases n
  {
    if n == 0 then [] else [lo] + Range(lo + 1, n - 1)
  }

  /** A frame numbered 1..n, as the reader builds one, is listed as pixel 1, 2, ..., n. */
  lemma DenseListing(m: map<nat, Pixels.Pixel>, n: nat)
    requires forall k :: k in m <==> 1 <= k <= n
    ensures PixelListing(m) == Listing(m, Range(1, n))
  {
    var ks := Range(1, n);
    forall k
      ensures k in ks <==> k in m.Keys
    {
      if k in ks {
        var i :| 0 <= i < n && ks[i] == k;
      }
      if 1 <= k <= n {
        assert ks[k - 1] == k;
      }
    }
    SortedKeysUnique(m.Keys, ks);
  }
}

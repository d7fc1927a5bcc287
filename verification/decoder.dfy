/**
 * `MapCreator.createMap`: a level is drawn as a small image, one pixel per
 * 48x48 tile. The image is scanned column by column (x outer, y inner) and
 * each pixel whose colour is in the legend adds one object at
 * (48 * x, 48 * y).
 */
module Decoder {

  import opened Opt
  import opened Entities
  import opened Levels

  newtype Byte = b: int | 0 <= b < 256

  /** A pixel as `BufferedImage.getRGB` reports it: alpha, red, green, blue. */
  datatype Pixel = Pixel(alpha: Byte, red: Byte, green: Byte, blue: Byte)

  /** `new Color(r, g, b).getRGB()`: a fully opaque colour. */
  function Opaque(r: Byte, g: Byte, b: Byte): Pixel
  {
    Pixel(255, r, g, b)
  }

  /** What a pixel asks for. A pixel outside the legend is `Blank`. */
  datatype Kind =
    | MarioSpawn
    | OrdinaryMark
    | SurpriseMark
    | GroundMark
    | PipeMark
    | GoombaMark
    | EndMark
    | Blank

  /** The legend colour of each kind. */
  function Colour(k: Kind): Pixel
    requires k != Blank
  {
    match k
    case MarioSpawn => Opaque(160, 160, 160)
    case OrdinaryMark => Opaque(0, 0, 255)
    case SurpriseMark => Opaque(255, 255, 0)
    case GroundMark => Opaque(255, 0, 0)
    case PipeMark => Opaque(0, 255, 0)
    case GoombaMark => Opaque(0, 255, 255)
    case EndMark => Opaque(160, 0, 160)
  }

  /** The koopa colour is defined alongside the legend but no branch tests it. */
  const KoopaColour: Pixel := Opaque(255, 0, 255)

  /** The chain of colour tests in the scan, in the order the source makes them. */
  function KindOf(p: Pixel): Kind
  {
    if p == Colour(OrdinaryMark) then OrdinaryMark
    else if p == Colour(SurpriseMark) then SurpriseMark
    else if p == Colour(PipeMark) then PipeMark
    else if p == Colour(GroundMark) then GroundMark
    else if p == Colour(GoombaMark) then GoombaMark
    else if p == Colour(MarioSpawn) then MarioSpawn
    else if p == Colour(EndMark) then EndMark
    else Blank
  }

  /** The legend is a bijection: every kind's colour reads back as that kind, and only it does. */
  lemma LegendRoundTrip(k: Kind, p: Pixel)
    ensures k != Blank ==> KindOf(Colour(k)) == k
    ensures KindOf(p) != Blank ==> p == Colour(KindOf(p))
  {
  }

  /** A koopa pixel, and any pixel that is not fully opaque, places nothing. */
  lemma InertPixels(p: Pixel)
    ensures KindOf(KoopaColour) == Blank
    ensures p.alpha != 255 ==> KindOf(p) == Blank
  {
  }

  // ------------------------------------------------------------------ scan

  /** A `BufferedImage`: its size and `getRGB(x, y)` for 0 <= x < width, 0 <= y < height. */
  datatype Image = Image(width: nat, height: nat, rgb: (nat, nat) -> Pixel)

  /** One visited pixel: its coordinates and what it asks for. */
  datatype Cell = Cell(x: nat, y: nat, kind: Kind)

  /** Column-major order: the scan visits `a` before `b`. */
  predicate Before(a: Cell, b: Cell)
  {
    a.x < b.x || (a.x == b.x && a.y < b.y)
  }

  predicate Ascending(cs: seq<Cell>)
  {
    forall i, j :: 0 <= i < j < |cs| ==> Before(cs[i], cs[j])
  }

  /** The pixel at (x, y) is inside the image and asks for `k`. */
  predicate Marked(img: Image, x: nat, y: nat, k: Kind)
  {
    x < img.width && y < img.height && KindOf(img.rgb(x, y)) == k
  }

  /** The inner loop: column x, top to bottom. */
  function Column(img: Image, x: nat): (r: seq<Cell>)
    ensures |r| == img.height
  {
    seq(img.height, y requires 0 <= y < img.height => Cell(x, y, KindOf(img.rgb(x, y))))
  }

  /** The outer loop over the first m columns. */
  function Columns(img: Image, m: nat): seq<Cell>
    decreases m
  {
    if m == 0 then [] else Columns(img, m - 1) + Column(img, m - 1)
  }

  /** Every pixel the scan visits, in visiting order. */
  function Cells(img: Image): seq<Cell>
  {
    Columns(img, img.width)
  }

  /** The first m columns hold exactly the pixels with x < m, each once, in column-major order. */
  lemma {:induction false} ColumnsExact(img: Image, m: nat)
    requires m <= img.width
    ensures forall c :: c in Columns(img, m) <==> c.x < m && Marked(img, c.x, c.y, c.kind)
    ensures Ascending(Columns(img, m))
    decreases m
  {
    if m > 0 {
      ColumnsExact(img, m - 1);
      var a := Columns(img, m - 1);
      var b := Column(img, m - 1);
      assert Columns(img, m) == a + b;
      forall c
        ensures c in b <==> c.x == m - 1 && Marked(img, c.x, c.y, c.kind)
      {
        if c.x == m - 1 && Marked(img, c.x, c.y, c.kind) {
          assert b[c.y] == Cell(m - 1, c.y, KindOf(img.rgb(m - 1, c.y))) == c;
        }
        if c in b {
          var k :| 0 <= k < |b| && b[k] == c;
          assert c == Cell(m - 1, k, KindOf(img.rgb(m - 1, k)));
        }
      }
      forall i, j | 0 <= i < j < |a + b|
        ensures Before((a + b)[i], (a + b)[j])
      {
        if j < |a| {
          assert (a + b)[i] == a[i] && (a + b)[j] == a[j];
        } else if i < |a| {
          assert (a + b)[i] == a[i] && a[i] in a;
          assert (a + b)[j] == b[j - |a|];
        } else {
          assert (a + b)[i] == b[i - |a|] && (a + b)[j] == b[j - |a|];
        }
      }
    }
  }

  /** The scan visits exactly the image's pixels, each once, in column-major order. */
  lemma CellsExact(img: Image)
    ensures forall c :: c in Cells(img) <==> Marked(img, c.x, c.y, c.kind)
    ensures Ascending(Cells(img))
  {
    ColumnsExact(img, img.width);
  }

  // ----------------------------------------------------------------- build

  /** Tile coordinates to pixel coordinates. */
  function Scale(n: nat): real
  {
    (Tile * n) as real
  }

  /** The body of the scan for one pixel. */
  function Place(l: Level, c: Cell): Level
  {
    var x := Scale(c.x);
    var y := Scale(c.y);
    match c.kind
    case OrdinaryMark => l.(bricks := l.bricks + [NewOrdinaryBrick(x, y)])
    case SurpriseMark => l
    case PipeMark => l.(groundBricks := l.groundBricks + [NewPipe(x, y)])
    case GroundMark => l.(groundBricks := l.groundBricks + [NewGroundBrick(x, y)])
    case GoombaMark => l.(enemies := l.enemies + [NewGoomba(x, y)])
    case MarioSpawn => l.(mario := Some(NewMario(x, y)))
    case EndMark => l.(endPoint := Some(NewEndFlag(x + 24.0, y)))
    case Blank => l
  }

  /** The scan as a fold over the visited cells. */
  function Decode(l: Level, cs: seq<Cell>): Level
    decreases |cs|
  {
    if |cs| == 0 then l else Place(Decode(l, cs[..|cs| - 1]), cs[|cs| - 1])
  }

  /**
   * `createMap`: an image that cannot be loaded gives no level; otherwise an
   * empty level with the given time limit is filled by the scan.
   */
  function CreateMap(img: Option<Image>, timeLimit: real): (r: Option<Level>)
    ensures r.None? <==> img.None?
    ensures r.Some? ==> r.value.remainingTime == timeLimit && r.value.revealedBricks == []
  {
    match img
    case None => None
    case Some(i) =>
      DecodeKeeps(NewLevel(timeLimit), Cells(i));
      Some(Decode(NewLevel(timeLimit), Cells(i)))
  }

  /** The scan never touches the clock or the revealed bricks. */
  lemma {:induction false} DecodeKeeps(l: Level, cs: seq<Cell>)
    ensures Decode(l, cs).remainingTime == l.remainingTime
    ensures Decode(l, cs).revealedBricks == l.revealedBricks
    decreases |cs|
  {
    if |cs| > 0 {
      DecodeKeeps(l, cs[..|cs| - 1]);
    }
  }

  // ------------------------------------------------- reference: by filtering

  /** The cells whose kind is in `ks`, in scan order. */
  function Where(cs: seq<Cell>, ks: set<Kind>): (r: seq<Cell>)
    ensures |r| <= |cs|
    decreases |cs|
  {
    if |cs| == 0 then []
    else Where(cs[..|cs| - 1], ks) + (if cs[|cs| - 1].kind in ks then [cs[|cs| - 1]] else [])
  }

  lemma {:induction false} WhereMembers(cs: seq<Cell>, ks: set<Kind>, c: Cell)
    ensures c in Where(cs, ks) <==> c in cs && c.kind in ks
    decreases |cs|
  {
    if |cs| > 0 {
      var n := |cs| - 1;
      WhereMembers(cs[..n], ks, c);
      assert cs == cs[..n] + [cs[n]];
    }
  }

  /** The brick a cell stands for. */
  function BrickAt(c: Cell): Brick
  {
    match c.kind
    case PipeMark => NewPipe(Scale(c.x), Scale(c.y))
    case GroundMark => NewGroundBrick(Scale(c.x), Scale(c.y))
    case _ => NewOrdinaryBrick(Scale(c.x), Scale(c.y))
  }

  function BricksAt(cs: seq<Cell>): (r: seq<Brick>)
    ensures |r| == |cs|
  {
    seq(|cs|, i requires 0 <= i < |cs| => BrickAt(cs[i]))
  }

  function GoombasAt(cs: seq<Cell>): (r: seq<Enemy>)
    ensures |r| == |cs|
  {
    seq(|cs|, i requires 0 <= i < |cs| => NewGoomba(Scale(cs[i].x), Scale(cs[i].y)))
  }

  /**
   * The lists the scan fills are the filtered cells, in scan order: soft
   * bricks from ordinary-brick pixels, ground bricks from ground and pipe
   * pixels (interleaved as met), Goombas from Goomba pixels.
   */
  lemma {:induction false} DecodeLists(l: Level, cs: seq<Cell>)
    ensures Decode(l, cs).bricks == l.bricks + BricksAt(Where(cs, {OrdinaryMark}))
    ensures Decode(l, cs).groundBricks == l.groundBricks + BricksAt(Where(cs, {GroundMark, PipeMark}))
    ensures Decode(l, cs).enemies == l.enemies + GoombasAt(Where(cs, {GoombaMark}))
    decreases |cs|
  {
    if |cs| > 0 {
      var n := |cs| - 1;
      var prefix := cs[..n];
      DecodeLists(l, prefix);
      var c := cs[n];
      var o := Where(prefix, {OrdinaryMark});
      var g := Where(prefix, {GroundMark, PipeMark});
      var e := Where(prefix, {GoombaMark});
      assert BricksAt(o + [c]) == BricksAt(o) + [BrickAt(c)];
      assert BricksAt(g + [c]) == BricksAt(g) + [BrickAt(c)];
      assert GoombasAt(e + [c]) == GoombasAt(e) + [NewGoomba(Scale(c.x), Scale(c.y))];
    }
  }

  /** `cs[i]` is the last cell of kind `k`. */
  predicate IsLastOf(cs: seq<Cell>, k: Kind, i: int)
  {
    && 0 <= i < |cs|
    && cs[i].kind == k
    && forall j :: i < j < |cs| ==> cs[j].kind != k
  }

  predicate NoneOf(cs: seq<Cell>, k: Kind)
  {
    forall j :: 0 <= j < |cs| ==> cs[j].kind != k
  }

  /** Mario is set, not added: the last spawn cell wins. */
  lemma {:induction false} DecodeMarioLast(l: Level, cs: seq<Cell>, i: int)
    requires IsLastOf(cs, MarioSpawn, i)
    ensures Decode(l, cs).mario == Some(NewMario(Scale(cs[i].x), Scale(cs[i].y)))
    decreases |cs|
  {
    var n := |cs| - 1;
    if i < n {
      assert IsLastOf(cs[..n], MarioSpawn, i);
      DecodeMarioLast(l, cs[..n], i);
    }
  }

  /** Without a spawn cell the level keeps its own Mario. */
  lemma {:induction false} DecodeMarioNone(l: Level, cs: seq<Cell>)
    requires NoneOf(cs, MarioSpawn)
    ensures Decode(l, cs).mario == l.mario
    decreases |cs|
  {
    if |cs| > 0 {
      assert NoneOf(cs[..|cs| - 1], MarioSpawn);
      DecodeMarioNone(l, cs[..|cs| - 1]);
    }
  }

  /** The flag is set, not added: the last end cell wins, half a tile to its right. */
  lemma {:induction false} DecodeFlagLast(l: Level, cs: seq<Cell>, i: int)
    requires IsLastOf(cs, EndMark, i)
    ensures Decode(l, cs).endPoint == Some(NewEndFlag(Scale(cs[i].x) + 24.0, Scale(cs[i].y)))
    decreases |cs|
  {
    var n := |cs| - 1;
    if i < n {
      assert IsLastOf(cs[..n], EndMark, i);
      DecodeFlagLast(l, cs[..n], i);
    }
  }

  /** Without an end cell the level keeps its own flag. */
  lemma {:induction false} DecodeFlagNone(l: Level, cs: seq<Cell>)
    requires NoneOf(cs, EndMark)
    ensures Decode(l, cs).endPoint == l.endPoint
    decreases |cs|
  {
    if |cs| > 0 {
      assert NoneOf(cs[..|cs| - 1], EndMark);
      DecodeFlagNone(l, cs[..|cs| - 1]);
    }
  }

  // --------------------------------------------------------- image level

  /**
   * The soft bricks, ground bricks and Goombas of a created map are exactly
   * the objects of the pixels of their colours, in scan order.
   */
  lemma CreateMapObjects(img: Image, timeLimit: real)
    ensures var l := CreateMap(Some(img), timeLimit).value;
            && l.bricks == BricksAt(Where(Cells(img), {OrdinaryMark}))
            && l.groundBricks == BricksAt(Where(Cells(img), {GroundMark, PipeMark}))
            && l.enemies == GoombasAt(Where(Cells(img), {GoombaMark}))
  {
    DecodeLists(NewLevel(timeLimit), Cells(img));
  }

  /** A soft brick is in the created map exactly when an ordinary-brick pixel sits at its tile. */
  lemma CreateMapBrickIff(img: Image, timeLimit: real, x: nat, y: nat)
    ensures NewOrdinaryBrick(Scale(x), Scale(y)) in CreateMap(Some(img), timeLimit).value.bricks
            <==> Marked(img, x, y, OrdinaryMark)
  {
    CreateMapObjects(img, timeLimit);
    CellsExact(img);
    var w := Where(Cells(img), {OrdinaryMark});
    var b := NewOrdinaryBrick(Scale(x), Scale(y));
    var c := Cell(x, y, OrdinaryMark);
    if b in BricksAt(w) {
      var i :| 0 <= i < |w| && BricksAt(w)[i] == b;
      WhereMembers(Cells(img), {OrdinaryMark}, w[i]);
      assert w[i] in w;
      assert w[i] == c;
    }
    if Marked(img, x, y, OrdinaryMark) {
      WhereMembers(Cells(img), {OrdinaryMark}, c);
      var i :| 0 <= i < |w| && w[i] == c;
      assert BricksAt(w)[i] == b;
    }
  }

  /** A Goomba is in the created map exactly when a Goomba pixel sits at its tile. */
  lemma CreateMapGoombaIff(img: Image, timeLimit: real, x: nat, y: nat)
    ensures NewGoomba(Scale(x), Scale(y)) in CreateMap(Some(img), timeLimit).value.enemies
            <==> Marked(img, x, y, GoombaMark)
  {
    CreateMapObjects(img, timeLimit);
    CellsExact(img);
    var w := Where(Cells(img), {GoombaMark});
    var g := NewGoomba(Scale(x), Scale(y));
    var c := Cell(x, y, GoombaMark);
    if g in GoombasAt(w) {
      var i :| 0 <= i < |w| && GoombasAt(w)[i] == g;
      WhereMembers(Cells(img), {GoombaMark}, w[i]);
      assert w[i] in w;
      assert w[i] == c;
    }
    if Marked(img, x, y, GoombaMark) {
      WhereMembers(Cells(img), {GoombaMark}, c);
      var i :| 0 <= i < |w| && w[i] == c;
      assert GoombasAt(w)[i] == g;
    }
  }

  /** (x, y) is the last pixel of kind `k` in column-major order. */
  ghost predicate LastMarked(img: Image, x: nat, y: nat, k: Kind)
  {
    && Marked(img, x, y, k)
    && forall x': nat, y': nat | x' < img.width && y' < img.height :: Marked(img, x', y', k) ==> Before(Cell(x', y', k), Cell(x, y, k)) || (x' == x && y' == y)
  }

  /** The cell of a last-marked pixel is the last cell of its kind in the scan. */
  lemma LastMarkedIsLastCell(img: Image, x: nat, y: nat, k: Kind) returns (i: int)
    requires LastMarked(img, x, y, k)
    ensures IsLastOf(Cells(img), k, i) && Cells(img)[i] == Cell(x, y, k)
  {
    CellsExact(img);
    var cs := Cells(img);
    assert Cell(x, y, k) in cs;
    i :| 0 <= i < |cs| && cs[i] == Cell(x, y, k);
    forall j | i < j < |cs|
      ensures cs[j].kind != k
    {
      assert cs[j] in cs;
      assert Before(cs[i], cs[j]);
    }
  }

  /**
   * Mario spawns at the last Mario pixel in column-major order, and the map
   * has no Mario when the image has no Mario pixel.
   */
  lemma CreateMapMario(img: Image, timeLimit: real, x: nat, y: nat)
    ensures LastMarked(img, x, y, MarioSpawn) ==>
              CreateMap(Some(img), timeLimit).value.mario == Some(NewMario(Scale(x), Scale(y)))
    ensures (forall x', y' :: !Marked(img, x', y', MarioSpawn)) ==>
              CreateMap(Some(img), timeLimit).value.mario == None
  {
    var cs := Cells(img);
    if LastMarked(img, x, y, MarioSpawn) {
      var i := LastMarkedIsLastCell(img, x, y, MarioSpawn);
      DecodeMarioLast(NewLevel(timeLimit), cs, i);
    }
    if forall x', y' :: !Marked(img, x', y', MarioSpawn) {
      CellsExact(img);
      forall j | 0 <= j < |cs|
        ensures cs[j].kind != MarioSpawn
      {
        assert cs[j] in cs;
      }
      DecodeMarioNone(NewLevel(timeLimit), cs);
    }
  }

  /**
   * The flag stands half a tile right of the last end pixel in column-major
   * order; with no end pixel the map has no flag.
   */
  lemma CreateMapFlag(img: Image, timeLimit: real, x: nat, y: nat)
    ensures LastMarked(img, x, y, EndMark) ==>
              CreateMap(Some(img), timeLimit).value.endPoint == Some(NewEndFlag(Scale(x) + 24.0, Scale(y)))
    ensures (forall x', y' :: !Marked(img, x', y', EndMark)) ==>
              CreateMap(Some(img), timeLimit).value.endPoint == None
  {
    var cs := Cells(img);
    if LastMarked(img, x, y, EndMark) {
      var i := LastMarkedIsLastCell(img, x, y, EndMark);
      DecodeFlagLast(NewLevel(timeLimit), cs, i);
    }
    if forall x', y' :: !Marked(img, x', y', EndMark) {
      CellsExact(img);
      forall j | 0 <= j < |cs|
        ensures cs[j].kind != EndMark
      {
        assert cs[j] in cs;
      }
      DecodeFlagNone(NewLevel(timeLimit), cs);
    }
  }

  // -------------------------------------------------------------- counting

  /** The cells of the image's pixels whose kind is in `ks`. */
  ghost function PixelCells(img: Image, ks: set<Kind>): set<Cell>
  {
    set x: nat, y: nat | x < img.width && y < img.height && KindOf(img.rgb(x, y)) in ks
      :: Cell(x, y, KindOf(img.rgb(x, y)))
  }

  /** Filtering keeps the scan order. */
  lemma {:induction false} WhereAscending(cs: seq<Cell>, ks: set<Kind>)
    requires Ascending(cs)
    ensures Ascending(Where(cs, ks))
    decreases |cs|
  {
    if |cs| > 0 {
      var n := |cs| - 1;
      var prefix := cs[..n];
      assert Ascending(prefix);
      WhereAscending(prefix, ks);
      var w := Where(prefix, ks);
      forall c | c in w
        ensures Before(c, cs[n])
      {
        WhereMembers(prefix, ks, c);
        var i :| 0 <= i < n && prefix[i] == c;
      }
    }
  }

  /** An ascending sequence has no repeats, so it has as many elements as its set. */
  lemma {:induction false} AscendingCard(cs: seq<Cell>)
    requires Ascending(cs)
    ensures |set c | c in cs| == |cs|
    decreases |cs|
  {
    if |cs| > 0 {
      var n := |cs| - 1;
      var prefix := cs[..n];
      assert Ascending(prefix);
      AscendingCard(prefix);
      assert cs[n] !in prefix;
      assert (set c | c in cs) == (set c | c in prefix) + {cs[n]} by {
        assert cs == prefix + [cs[n]];
      }
    }
  }

  /** The scan places exactly one object per pixel of the kinds in `ks`. */
  lemma CountMatchesPixels(img: Image, ks: set<Kind>)
    ensures |Where(Cells(img), ks)| == |PixelCells(img, ks)|
  {
    CellsExact(img);
    var w := Where(Cells(img), ks);
    WhereAscending(Cells(img), ks);
    AscendingCard(w);
    assert (set c | c in w) == PixelCells(img, ks) by {
      forall c
        ensures c in w <==> c in PixelCells(img, ks)
      {
        WhereMembers(Cells(img), ks, c);
        if c in PixelCells(img, ks) {
          assert Marked(img, c.x, c.y, c.kind);
        }
      }
    }
  }

  /**
   * A created map has one soft brick per ordinary-brick pixel, one ground
   * brick per ground or pipe pixel, and one Goomba per Goomba pixel.
   */
  lemma CreateMapCounts(img: Image, timeLimit: real)
    ensures var l := CreateMap(Some(img), timeLimit).value;
            && |l.bricks| == |PixelCells(img, {OrdinaryMark})|
            && |l.groundBricks| == |PixelCells(img, {GroundMark, PipeMark})|
            && |l.enemies| == |PixelCells(img, {GoombaMark})|
  {
    CreateMapObjects(img, timeLimit);
    CountMatchesPixels(img, {OrdinaryMark});
    CountMatchesPixels(img, {GroundMark, PipeMark});
    CountMatchesPixels(img, {GoombaMark});
  }

  /** The kinds that place something: not surprise bricks, not blank. */
  const Active: set<Kind> := {MarioSpawn, OrdinaryMark, GroundMark, PipeMark, GoombaMark, EndMark}

  /** Surprise-brick, koopa and unknown pixels leave no trace: dropping them from the scan changes nothing. */
  lemma {:induction false} DecodeIgnoresInert(l: Level, cs: seq<Cell>)
    ensures Decode(l, Where(cs, Active)) == Decode(l, cs)
    decreases |cs|
  {
    if |cs| > 0 {
      var n := |cs| - 1;
      var prefix := cs[..n];
      DecodeIgnoresInert(l, prefix);
      var w := Where(prefix, Active);
      if cs[n].kind in Active {
        assert Where(cs, Active) == w + [cs[n]];
        assert (w + [cs[n]])[..|w|] == w;
      } else {
        assert Where(cs, Active) == w;
      }
    }
  }
}

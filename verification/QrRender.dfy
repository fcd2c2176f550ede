/** Rendering a symbol as an image with a four-module quiet zone. */
module QrRender {
  import opened Numbers

  datatype Colour = White | Black

  type Image = array2<Colour>

  /** The pixels per module that fit the requested size, and at least one. */
  function Scale(modules: nat, size: int): (scale: nat)
    ensures scale >= 1
  {
    if size / (modules + 8) < 1 then 1 else size / (modules + 8)
  }

  /** The side is the largest whole number of modules, quiet zone included, that the size admits. */
  lemma LargestSide(modules: nat, size: int)
    ensures var side := (modules + 8) * Scale(modules, size);
      if size >= modules + 8 then side <= size < side + (modules + 8) else side == modules + 8
  {
    if size < modules + 8 {
      TooSmall(modules, size);
      return;
    }
    InBlock(size, modules + 8, size / (modules + 8));
    assert size / (modules + 8) >= 1 by {
      InBlock(size, modules + 8, 0);
    }
  }

  lemma TooSmall(modules: nat, size: int)
    requires size < modules + 8
    ensures Scale(modules, size) == 1
  {
    if size >= 0 {
      InBlock(size, modules + 8, 0);
    }
  }

  /** The square of pixels of one module: the two innermost loops. */
  method PaintModule(img: Image, scale: nat, row: nat, col: nat)
    requires scale >= 1 && (col + 4) * scale + scale <= img.Length0 && (row + 4) * scale + scale <= img.Length1
    modifies img
    ensures forall x, y | 0 <= x < img.Length0 && 0 <= y < img.Length1 ::
      img[x, y] == if x / scale == col + 4 && y / scale == row + 4 then Black else old(img[x, y])
  {
    var left, top := (col + 4) * scale, (row + 4) * scale;
    for dy := 0 to scale
      invariant forall x, y | 0 <= x < img.Length0 && 0 <= y < img.Length1 ::
        img[x, y] == if left <= x < left + scale && top <= y < top + dy then Black else old(img[x, y])
    {
      for dx := 0 to scale
        invariant forall x, y | 0 <= x < img.Length0 && 0 <= y < img.Length1 ::
          img[x, y] == if left <= x < left + scale && (top <= y < top + dy || (y == top + dy && x < left + dx))
                       then Black else old(img[x, y])
      {
        img[(col + 4) * scale + dx, (row + 4) * scale + dy] := Black;
      }
    }
    forall x: nat, y: nat
      ensures x / scale == col + 4 <==> left <= x < left + scale
      ensures y / scale == row + 4 <==> top <= y < top + scale
    {
      InBlock(x, scale, col + 4);
      InBlock(y, scale, row + 4);
    }
  }

  /** Module (row, col) of the symbol, or white in the quiet zone around it. */
  predicate Dark(matrix: array2<bool>, row: int, col: int)
    reads matrix
  {
    0 <= row < matrix.Length0 && 0 <= col < matrix.Length1 && matrix[row, col]
  }

  lemma ModuleFits(modules: nat, scale: nat, k: nat)
    requires k < modules
    ensures (k + 4) * scale + scale <= (modules + 8) * scale
  {
    assert (modules + 8) * scale == (k + 4) * scale + (modules + 4 - k) * scale;
    assert (modules + 4 - k) * scale >= scale;
  }

  method RenderQrImage(matrix: array2<bool>, size: int) returns (img: Image)
    requires matrix.Length0 == matrix.Length1
    ensures fresh(img)
    ensures var scale := Scale(matrix.Length0, size);
      && img.Length0 == img.Length1 == (matrix.Length0 + 8) * scale
      && forall x, y | 0 <= x < img.Length0 && 0 <= y < img.Length1 ::
           var row, col := y / scale - 4, x / scale - 4;
           img[x, y] == Black <==> 0 <= row < matrix.Length0 && 0 <= col < matrix.Length1 && matrix[row, col]
  {
    var modules := matrix.Length0;
    var scale := size / (modules + 8);
    if scale < 1 {
      scale := 1;
    }
    var imgSize := (modules + 8) * scale;
    img := WhiteImage(imgSize);
    for row := 0 to modules
      modifies img
      invariant forall x, y | 0 <= x < imgSize && 0 <= y < imgSize ::
        img[x, y] == Black <==> (Dark(matrix, y / scale - 4, x / scale - 4) && y / scale - 4 < row)
    {
      for col := 0 to modules
        modifies img
        invariant forall x, y | 0 <= x < imgSize && 0 <= y < imgSize ::
          img[x, y] == Black <==> (Dark(matrix, y / scale - 4, x / scale - 4)
                                   && (y / scale - 4 < row || (y / scale - 4 == row && x / scale - 4 < col)))
      {
        if matrix[row, col] {
          ModuleFits(modules, scale, row);
          ModuleFits(modules, scale, col);
          PaintModule(img, scale, row, col);
        }
      }
    }
  }

  method WhiteImage(side: nat) returns (img: Image)
    ensures fresh(img) && img.Length0 == img.Length1 == side
    ensures forall x, y | 0 <= x < side && 0 <= y < side :: img[x, y] == White
  {
    img := new Colour[side, side];
    for y := 0 to side
      invariant forall x, j | 0 <= x < side && 0 <= j < y :: img[x, j] == White
    {
      for x := 0 to side
        invariant forall i, j | 0 <= i < side && 0 <= j < y :: img[i, j] == White
        invariant forall i | 0 <= i < x :: img[i, y] == White
      {
        img[x, y] := White;
      }
    }
  }
}

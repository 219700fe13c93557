# anemoi-graphs point-set utilities, modelled in Dafny

This project models two helpers from `src/anemoi/graphs/utils.py` in
anemoi-graphs. The helpers prepare and query the point sets from which
spatial graphs are built:

- `add_margin` pads the points given as parallel latitude and longitude
  arrays. A negative margin fails an assertion. A zero margin gives back the
  inputs. Any other margin gives nine blocks, one for each pair of signs in
  {-1, 0, 1} x {-1, 0, 1}. The latitude sign is the outer loop and the
  longitude sign the inner one. Each block is the input shifted by
  `sign * margin` on each axis, and the blocks are concatenated.
- `get_index_in_outer_join` finds the row of an M x N matrix that equals a
  vector element by element. It returns that row's index, or -1 when no row
  matches. When several rows match, converting the matching indices to one
  integer raises an error.

Everything lives in module `GraphUtils` (`utils.dfy`):

- Coordinates are `real`.
- Matrix entries are any type with equality.
- The assertion failure and the scalar-conversion error are `Err` values of
  a `Result`.
- `AddMargin` is a method with the source's two nested loops. It appends
  blocks to two lists and concatenates them at the end. It is proved equal to
  `PaddedLats`/`PaddedLons`, which spell the nine blocks out in order. The
  lemmas state the properties of those two functions.
- `IndexInOuterJoin` is a function, as the source is a single vectorised
  comparison. `Where` models `torch.where`.

The docstring of `add_margin` says that each added point is "at a distance of
`margin`" from the original. For the four diagonal offsets the code shifts
both coordinates by `margin`, so those points are further away. The model
follows the code.

## Model

| member | source | states |
|---|---|---|
| `GraphUtils.AddMargin` | src/anemoi/graphs/utils.py:54-85 | negative margin: fails with `NegativeMargin`; zero margin: returns `lats` and `lons` themselves; positive margin: returns exactly `PaddedLats`/`PaddedLons`, built by the nested sign loops |
| `GraphUtils.ConcatLength` | src/anemoi/graphs/utils.py:85 | concatenating blocks that all have length n gives `|blocks| * n` elements |
| `GraphUtils.ConcatAt` | src/anemoi/graphs/utils.py:85 | element i of block k is at position `k * n + i` of the concatenation |
| `GraphUtils.PaddedLats` | src/anemoi/graphs/utils.py:79-85 | a positive margin returns `9 * |lats|` latitudes |
| `GraphUtils.PaddedLons` | src/anemoi/graphs/utils.py:79-85 | a positive margin returns `9 * |lons|` longitudes |
| `GraphUtils.PaddedLatsAt` | src/anemoi/graphs/utils.py:80-82 | for signs a, b in {-1, 0, 1}, latitude `(3*(a+1)+(b+1))*N + i` is `lats[i] + a*margin` (latitude sign in the outer loop) |
| `GraphUtils.PaddedLonsAt` | src/anemoi/graphs/utils.py:80-83 | for signs a, b in {-1, 0, 1}, longitude `(3*(a+1)+(b+1))*N + i` is `lons[i] + b*margin` (longitude sign in the inner loop) |
| `GraphUtils.PaddedLatsEveryPoint` | src/anemoi/graphs/utils.py:79-85 | every output latitude j is input latitude `j % N` shifted by `(j/N)/3 - 1` margins, so the output holds nothing but shifted inputs |
| `GraphUtils.PaddedLonsEveryPoint` | src/anemoi/graphs/utils.py:79-85 | every output longitude j is input longitude `j % N` shifted by `(j/N)%3 - 1` margins, so the output holds nothing but shifted inputs |
| `GraphUtils.PaddedCentre` | src/anemoi/graphs/utils.py:80-83 | positions `4N .. 5N-1` (offset (0, 0)) reproduce `lats` and `lons` exactly |
| `GraphUtils.PaddedCopiesDistinct` | src/anemoi/graphs/utils.py:55-57 | with a positive margin, the nine copies of one point are pairwise different points |
| `GraphUtils.MatchMaskRowEqual` | src/anemoi/graphs/utils.py:105 | the mask entry of row k is true exactly when row k, as a whole array, equals the vector |
| `GraphUtils.Where` | src/anemoi/graphs/utils.py:107 | returns the true positions of the mask, all of them and only them, in strictly increasing order |
| `GraphUtils.WhereSeveral` | src/anemoi/graphs/utils.py:106-107 | `where` finds two or more positions exactly when two different mask entries are true |
| `GraphUtils.IndexInOuterJoin` | src/anemoi/graphs/utils.py:88-108 | returns -1 exactly when no row matches; any other index it returns belongs to a matching row, and no other row matches; it fails with `MultipleMatches` exactly when two different rows match |
| `GraphUtils.UniqueRowFound` | src/anemoi/graphs/utils.py:105-107 | when row i is the only matching row, the result is i |

## Left out

- `get_nearest_neighbour` (utils.py:8-29) is left out. It wraps sklearn's haversine `NearestNeighbors`, fitted with 4 parallel jobs. Its only local step is the mask-shape assertion, and the mask is never used in the fit.
- `get_grid_reference_distance` (utils.py:32-51) is left out. It depends on sklearn's `kneighbors` query and on floating-point great-circle distances.
- `tests/test_graphs.py` is left out. It is an end-to-end graph-building run that reads and writes files. It asserts nothing about these two helpers.
- Float rounding, NaN and infinities are not modelled. Coordinates are `real`, so `lats + sign * margin` is exact. A NaN margin, which fails the assertion in the source, has no counterpart.
- The numpy arrays and torch tensors are sequences. Copying and aliasing are not modelled: for a zero margin the model returns the same values, and the source returns the same array objects.
- IndexInOuterJoin requires that every row has the vector's length, the shapes (M, N) and (N,) that the source documents. torch broadcasting of other shapes, and the errors it raises for them, are not modelled.
- AddMargin: the negative-margin failure assumes Python assertions are enabled. With assertions stripped (`python -O`), the check at utils.py:75 is gone, and a negative margin runs the loops and returns nine blocks with the shifts reversed. The model does not cover that mode.

# Re-centring and deposition responses of a 1-D reaction–diffusion study

This project models two small pieces of numerical logic from a study of a
chemical concentration field coupled to a plankton density field on a
periodic 1-D grid.

- `plotting.dfy` (module `Plotting`) models `CenterData`. This routine runs
  on every snapshot before it is plotted. It finds the index K of the
  density maximum and the middle index Ha = int((N + 1) / 2). It then
  cyclically shifts both the chemical and the density field by |K - Ha|:
  forward when K < Ha, backward when K > Ha. Finally it copies the first
  sample of each shifted field into its last slot, so the two ends of the
  periodic interval show the same value. When K == Ha the input arrays
  themselves are returned.
  - The routine is imperative and becomes a `method` over `array<real>`,
    with `for` loops and their invariants.
  - That method is proved equal to `Recentred`, a function on sequences.
    All properties are proved about `Recentred`:
    - where each sample goes;
    - that the peak reaches Ha on grids of four points or more;
    - that the shifted fields keep their samples, except the one the
      last-slot copy overwrites;
    - the tie-break between equal maxima;
    - that on grids of two and three points the last-slot copy always
      overwrites the centred peak when the peak had to move;
    - the one-point grid case.
- `deposition.dfy` (module `Deposition`) models the three deposition-rate
  responses `constantDep`, `atanDep` and `linAtanDep`. They are pure
  closed-form maps from a concentration to a deposition strength.
  - numpy's `tanh` is a parameter `tanh: real -> real`. The lemmas assume of
    it only what `TanhLaws` collects: tanh(0) = 0, -1 < tanh < 1, and tanh
    strictly increasing.
  - `TanhLawsSatisfiable` shows that these laws can hold together.

The model follows the code in two places where it departs from what its
stated purpose (centre the maximum) suggests:

- One might expect the first index of the maximum to win a tie. The scan
  at `Section_3/Methods/Plotting.py:151-153` overwrites K at every match, so
  the last index wins. `PeakIndex`, `LastPeak` and `TieGoesToLastPeak`
  state the behaviour of the code.
- One might expect the density maximum always to end up at Ha. That holds
  for N >= 4 (`PeakAtMidpoint`). For N = 2 and N = 3, Ha is the last index.
  Whenever K != Ha, the last-slot copy then replaces the peak with a smaller
  sample (`PeakLostOnSmallGrids`).

Python's `%` with a positive modulus is the floored remainder. This equals
Dafny's Euclidean `%`, which the index formulas use. The division in
`int((Class.N + 1) / 2)` is taken as Python 3 true division. Truncating it
gives (N + 1) / 2 rounded down, for any N >= 0. The default width `1/250` is
taken as 0.004, also under Python 3 division.

## Model

| member | source | states |
|---|---|---|
| Plotting.Max | Section_3/Methods/Plotting.py:150 | the maximum A is one of the samples and no sample exceeds it |
| Plotting.LastIndexOf | Section_3/Methods/Plotting.py:151-153 | the scan's last match: the index returned holds the value and no later index does |
| Plotting.PeakIndex | Section_3/Methods/Plotting.py:150-153 | K holds the maximum and every later sample is strictly smaller, so a tie goes to the last maximum |
| Plotting.PeakIndexUnique | Section_3/Methods/Plotting.py:150-153 | any index that holds the maximum, with no equal sample after it, is K |
| Plotting.PeakIsMax | Section_3/Methods/Plotting.py:150-153 | the sample at K is the maximum A |
| Plotting.LastPeak | Section_3/Methods/Plotting.py:150-153 | the scan returns PeakIndex of the density; the sample there is the maximum and every later one is strictly smaller |
| Plotting.Midpoint | Section_3/Methods/Plotting.py:155 | Ha is ceil(N/2): 2*Ha - N is 0 or 1 |
| Plotting.Wrap | Section_3/Methods/Plotting.py:159-165 | for an index at most one period outside [0, N), one correction gives Python's x % N, which lies in [0, N) |
| Plotting.CloseEnds | Section_3/Methods/Plotting.py:161-162 | the last slot becomes a copy of the first and every other slot is unchanged |
| Plotting.Rotate | Section_3/Methods/Plotting.py:158-160 | the cyclic shift of a field keeps its N samples; where each one goes is stated by RotateAt |
| Plotting.RotateAt | Section_3/Methods/Plotting.py:158-160 | after a shift by `shift`, slot j holds sample (j - shift) mod N, i.e. sample i went to slot (i + shift) mod N |
| Plotting.RotatePermutes | Section_3/Methods/Plotting.py:158-160 | the cyclic shift is a permutation of the samples (equal multisets) |
| Plotting.Shifted | Section_3/Methods/Plotting.py:156-171 | a field keeps its length; it is unchanged when K == Ha, and otherwise its last slot equals its first |
| Plotting.Recentred | Section_3/Methods/Plotting.py:147-172 | both returned fields have length N; they are the inputs themselves when K == Ha, and otherwise each ends in a copy of its first sample |
| Plotting.ShiftedForwardAt | Section_3/Methods/Plotting.py:157-162 | when K < Ha, every output slot j but the last holds input sample (j - dist) mod N |
| Plotting.ShiftedBackwardAt | Section_3/Methods/Plotting.py:163-168 | when K > Ha, every output slot j but the last holds input sample (j + dist) mod N |
| Plotting.RecentredAt | Section_3/Methods/Plotting.py:156-168 | the chemical and density fields are moved by the same shift, with the same index mapping, in both rotated branches |
| Plotting.PeakAtMidpoint | Section_3/Methods/Plotting.py:145-168 | on a grid of at least four points the output density holds the maximum at Ha |
| Plotting.PeakLostOnSmallGrids | Section_3/Methods/Plotting.py:155-168 | for every density on a grid of two or three points with K != Ha, the output sample at Ha is strictly below the maximum |
| Plotting.SmallGridExamples | Section_3/Methods/Plotting.py:155-168 | the densities [5, 0] and [5, 0, 1] come out as [0, 0] and [0, 1, 0] |
| Plotting.SinglePointUnchanged | Section_3/Methods/Plotting.py:155-162 | on a one-point grid (K = 0, Ha = 1) both fields come out unchanged |
| Plotting.ShiftedKeepsSamples | Section_3/Methods/Plotting.py:157-168 | in the rotated branches, all output slots but the last hold exactly the input samples minus the one sent to the last slot, (N - 1 + K - Ha) mod N |
| Plotting.ForwardExample | Section_3/Methods/Plotting.py:150-162 | density [1, 5, 2, 2] with chemical [10, 50, 20, 30] gives density [2, 1, 5, 2] and chemical [30, 10, 50, 30] |
| Plotting.TieGoesToLastPeak | Section_3/Methods/Plotting.py:150-162 | with density [5, 1, 5, 1, 1] the peak taken is K = 2, and the output density is [1, 5, 1, 5, 1] |
| Plotting.CenterData | Section_3/Methods/Plotting.py:143-172 | the returned pair equals Recentred of the inputs; when K == Ha the input arrays themselves are returned, otherwise two new, distinct arrays |
| Plotting.ShiftInto | Section_3/Methods/Plotting.py:156-168 | the two rotated branches fill the new buffers with Shifted of each field |
| Plotting.ScatterShifted | Section_3/Methods/Plotting.py:158-160 | the copy loop that writes sample i at (i + shift) mod N leaves each buffer holding the cyclic shift of its field |
| Plotting.CopyFirstToLast | Section_3/Methods/Plotting.py:161-162 | the buffer becomes CloseEnds of its previous contents |
| Deposition.ConstantDep | Section_4/Methods/Deposition.py:9-11 | the constant response is the maximum strength, whatever the concentration, threshold or width |
| Deposition.Elementwise | Section_4/Methods/Deposition.py:11 | applying a response to an array of concentrations gives an array of the same length whose entry i is the response at entry i |
| Deposition.ConstantDepBroadcast | Section_4/Methods/Deposition.py:9-11 | over an array of concentrations, every entry of the constant response is the maximum strength |
| Deposition.AtanDep | Section_4/Methods/Deposition.py:13-15 | at c equal to the threshold the soft switch gives half the maximum strength |
| Deposition.AtanDepBounds | Section_4/Methods/Deposition.py:13-15 | the soft switch lies between zero and a non-negative maximum strength, and strictly between them when the strength is positive |
| Deposition.AtanDepNonIncreasing | Section_4/Methods/Deposition.py:13-15 | with a positive width and a non-negative strength the soft switch never increases with c; it strictly decreases when the strength is positive |
| Deposition.LinAtanDep | Section_4/Methods/Deposition.py:17-19 | the linear soft switch gives 0.6 of the maximum strength at the threshold and zero at c = -0.2 * threshold |
| Deposition.LinAtanDepScalesAtanDep | Section_4/Methods/Deposition.py:13-19 | the linear soft switch equals the soft switch times (c + 0.2 * threshold) / threshold |
| Deposition.DefaultsExample | Section_4/Methods/Deposition.py:9-19 | with the default threshold 0.08 and strength 3, the soft switch at c = 0.08 is 1.5, the linear one is 1.8, and the constant response is 3 at every entry |
| Deposition.TanhLawsSatisfiable | Section_4/Methods/Deposition.py:15 | x / (1 + abs(x)) satisfies every law assumed of tanh, so those laws are consistent |

## Left out

- The plotting, animation and video-export code around `CenterData`: it only draws with the graphics library and states nothing checkable.
- Plotting.CenterData: the `Class` object is replaced by the array length N. The source reads both `len(Class.xm)` and `Class.N`, and the model takes both to equal the length of `p`.
- Plotting.CenterData: requires `c` to have the same length as `p`. In the two shifting branches (Plotting.py:157-168) a shorter `c` raises an IndexError and a longer one has its tail dropped. When K == Ha (Plotting.py:169-171) `c` is returned as it is, whatever its length. None of these paths is modelled.
- Plotting.CenterData: requires a non-empty density. On an empty array `max` raises a ValueError, which is not modelled.
- Plotting.CenterData: samples are reals, not IEEE doubles. With a NaN in the density, `max` and `==` behave in ways the model does not capture, including the case where K is never assigned.
- Deposition.AtanDep: requires a non-zero transition width. numpy would return inf or nan after a division by zero.
- Deposition.LinAtanDep: requires a non-zero threshold and a non-zero transition width, for the same reason.
- Deposition.AtanDep, Deposition.LinAtanDep: `np.tanh` is a parameter, and only TanhLaws is assumed of it. Values that depend on its exact shape away from 0 are not stated, and rounding is not modelled.
- The `**kwargs` argument of the three responses is ignored by the source and is not modelled.
- Deposition.ConstantDep, Deposition.AtanDep, Deposition.LinAtanDep: numpy broadcasting over arrays is modelled by `Elementwise` for scalar responses only; shapes other than one-dimensional arrays are not modelled.
- The default width `1/250` is 0.004 under Python 3. Under Python 2 integer division it would be 0, and the soft switches would divide by zero.
- The unused imports of Section_4/Methods/Deposition.py (profiling, OpenCV, image filters, random numbers) do nothing in the modelled functions.
- Both fields are taken to be float arrays, and Python 3 is assumed throughout. With an integer density, `CNew = 0*p` (Plotting.py:148) would be an integer array, and the chemical values written into it would be truncated. Under Python 2, `depMaxStr/2` (Deposition.py:15) would be integer division for an integer strength. Neither behaviour is modelled.

# Skin-tone undertone advisor, modelled in Dafny

This project models the core of `SkinToneAnalyzer`. It is a browser widget: the
user uploads a photo and the widget reads back a 50 x 50 pixel window from the
photo's centre. It averages the red, green and blue bytes of that window and
forms the warmth score `(r - b) / ((r + b) / 2)`. From that score it picks one
of three undertone labels: warm above 0.1, cool below -0.1, neutral otherwise.
It then shows the label's fixed palette of five named colours.

Modules, in pipeline order:

- `Wrappers`: `Option`, for React state slots that may be `null`.
- `Canvas`: bytes, RGBA pixels, decoded images, and the canvas readback
  `GetImageData`. The readback rests on one assumption about the foreign
  canvas calls: inside the image each pixel reads back as the decoded pixel,
  and every pixel outside the canvas reads back as transparent black (zero
  bytes).
- `Sampling`: the window origin `(floor(w/2) - 25, floor(h/2) - 25)`, the
  centre sample, and the averaging loop `AverageChannels`. The loop is proved
  against the specification functions `ChannelSum` and `ChannelAverage`, with
  lemmas on bounds, alpha independence and uniform samples.
- `Classifier`: `DetermineUndertone` on byte averages. The warmth score is an
  exact reference value, stated as a Dafny `real`: NaN for `0 / 0`, otherwise
  `(r - b) / ((r + b) / 2)`. The strict comparisons of that real with `0.1` and
  `-0.1` are proved to be the integer tests `20 * (r - b) > r + b` and
  `20 * (b - r) > r + b`, which the function evaluates.
- `Palette`: the `colorRecommendations` table, reproduced entry for entry as a
  map keyed by the strings `"warm"`, `"cool"` and `"neutral"`.
- `Analyzer`: the component as a class. Its fields are `imageData`, `skinTone`,
  `recommendations` and `error`. It has one method per event: `HandleImageUpload`
  and `OnImageLoad`, which calls `AnalyzeSkinTone`. Lemmas cover whole images:
  uniform windows, empty images, small images that are classified on darkened
  averages, and the tomato-red end-to-end case.

The code has no bounds check on the window and no guard on the warmth
division. The model keeps both as written:

- For an image smaller than 50 x 50 the window reaches off the image. The
  off-image pixels read back as zeros and take part in the average. A small
  image is therefore classified on darkened averages, which can change its
  label (`SmallUniformImageDarkened`, `SmallImageChangesLabel`). An image with
  no pixels at all comes out neutral (`EmptyImageNeutral`).
- `0 / 0` is NaN, both strict comparisons are false, and the label is neutral
  (`BlackIsNeutral`).
- The averages use `Math.floor` on sums that are never negative, so they are
  Dafny's integer `/`. Each sum is at most 255 * 2500, so the double quotient
  `sum / 2500` is either an exact integer or at least 1/2500 away from one, and
  its floor is the integer quotient.

Why the integer tests are exact for doubles: with `r, b` in 0..255 and
`r + b > 0`, the exact score either equals plus or minus 0.1 or lies at least
1/5100 away from it (`WarmthAwayFromThresholds`). A quotient exactly equal to
0.1 is rounded to the double `0.1`, the same value as the literal, so the
strict `>` fails, as the exact comparison does. Anywhere else, one rounding
error (about 1e-17) cannot cross the threshold.

## Model

| member | source | states |
|---|---|---|
| `Canvas.PixelAt` | src/SkinToneAnalyzer.js:51-67 | the canvas pixel at (x, y): the decoded pixel inside a well-formed image, transparent black (all bytes zero) outside it; this is where the zero-fill assumption about the foreign canvas lives |
| `Canvas.GetImageData` | src/SkinToneAnalyzer.js:62-67 | the readback of an `sw` x `sh` rectangle is `4 * sw * sh` bytes |
| `Canvas.ReadbackPixel` | src/SkinToneAnalyzer.js:62-67 | pixel `k` of the readback is the canvas pixel at column `sx + k mod sw`, row `sy + k div sw`, byte for byte (row-major order) |
| `Canvas.ReadbackOutside` | src/SkinToneAnalyzer.js:62-67 | a readback pixel outside the image is zero in every channel (the zero-fill assumption) |
| `Canvas.ReadbackInside` | src/SkinToneAnalyzer.js:51-67 | a readback pixel inside a well-formed image equals the decoded image's pixel, because the image is drawn at (0, 0) on a canvas of its own size |
| `Sampling.SampleOrigin` | src/SkinToneAnalyzer.js:58-64 | the window origin on each axis is `floor(size / 2) - 25`, stated as: twice the window's 26th column (row) is the width (height) or one less |
| `Sampling.WindowInsideIff` | src/SkinToneAnalyzer.js:58-67 | the 50-pixel window starting at `floor(size/2) - 25` lies within an axis exactly when that axis is at least 50 long, on both axes |
| `Sampling.CenterSample` | src/SkinToneAnalyzer.js:58-67 | the centre window reads back as `4 * 50 * 50` bytes |
| `Sampling.SamplePixelCount` | src/SkinToneAnalyzer.js:60-79 | the pixel count `length / 4` of the sample is 2500, and the length is a whole number of pixels |
| `Sampling.ChannelSum` | src/SkinToneAnalyzer.js:70-77 | the sum of one channel over the first `n` pixels (the accumulator of the loop) lies in `0..255 * n` |
| `Sampling.ChannelAverage` | src/SkinToneAnalyzer.js:79-82 | the average is the floor quotient of the channel sum by the pixel count: `avg * n <= sum < (avg + 1) * n`, and it is a byte |
| `Sampling.SumBounds` | src/SkinToneAnalyzer.js:70-77 | if every pixel's channel lies in `lo..hi`, the channel sum over `n` pixels lies in `lo*n..hi*n` |
| `Sampling.DivBounds` | src/SkinToneAnalyzer.js:79-82 | floor division of such a sum by the positive pixel count lands in `lo..hi` |
| `Sampling.AverageBounds` | src/SkinToneAnalyzer.js:70-82 | each channel average lies between any lower and upper bound of that channel over the sample, so between its minimum and maximum |
| `Sampling.UniformAverage` | src/SkinToneAnalyzer.js:70-82 | a sample whose channel is `v` in every pixel averages to exactly `v` |
| `Sampling.SumWithZero` | src/SkinToneAnalyzer.js:70-77 | if one of `n` pixels is zero in a channel and none exceeds `v`, the channel sum is at most `v * (n - 1)` |
| `Sampling.AverageBelowWithZero` | src/SkinToneAnalyzer.js:70-82 | such a sample averages strictly below a positive `v` |
| `Sampling.SumsAgree` | src/SkinToneAnalyzer.js:73-77 | two buffers that agree on one channel of every pixel have equal sums for it |
| `Sampling.AlphaIgnored` | src/SkinToneAnalyzer.js:73-82 | buffers that differ only in alpha bytes (offsets `4k + 3`) have the same red, green and blue averages |
| `Sampling.AverageChannels` | src/SkinToneAnalyzer.js:69-82 | the loop stepping four bytes at a time returns, for red, green and blue, the floor of the channel sum divided by `length / 4` |
| `Classifier.KeyInjective` | src/SkinToneAnalyzer.js:95-97 | the three label strings "warm", "cool", "neutral" are distinct |
| `Classifier.Warmth` | src/SkinToneAnalyzer.js:93 | the score is NaN exactly when `r + b == 0`; otherwise it is the real that multiplied by `(r + b) / 2` gives `r - b` |
| `Classifier.WarmthTests` | src/SkinToneAnalyzer.js:93-96 | for bytes, `warmth > 0.1` holds iff `20 * (r - b) > r + b`, and `warmth < -0.1` iff `20 * (b - r) > r + b`; with a NaN score both sides are false |
| `Classifier.DetermineUndertone` | src/SkinToneAnalyzer.js:90-98 | returns exactly one label: warm iff the real warmth score is above 0.1, cool iff it is below -0.1, neutral iff neither; a NaN score satisfies neither comparison |
| `Classifier.WarmthAwayFromThresholds` | src/SkinToneAnalyzer.js:93-96 | for byte inputs the real score either equals plus or minus 0.1 or is at least 1/5100 away from it |
| `Classifier.BlackIsNeutral` | src/SkinToneAnalyzer.js:93-97 | with `r = b = 0` the score is NaN and the label is neutral, whatever `g` is |
| `Classifier.GreenIgnored` | src/SkinToneAnalyzer.js:90-98 | the label does not depend on the green average |
| `Classifier.WarmthAntisymmetric` | src/SkinToneAnalyzer.js:93 | swapping red and blue negates the warmth score (NaN stays NaN) |
| `Classifier.SwapMirrors` | src/SkinToneAnalyzer.js:90-98 | swapping red and blue exchanges warm and cool and leaves neutral fixed |
| `Classifier.Examples` | src/SkinToneAnalyzer.js:93-97 | (200,120,60) is warm, (60,120,200) cool, (128,128,128) neutral; (21,g,19) scores exactly 0.1 and is neutral, (22,g,19) is warm |
| `Palette.ColorRecommendations` | src/SkinToneAnalyzer.js:13-44 | `colorRecommendations[key]` for each label's key: every palette has exactly 5 entries, each hex being `#` followed by six hexadecimal digits |
| `Palette.TableKeys` | src/SkinToneAnalyzer.js:13-44 | the table's keys are exactly the three label strings, so looking up any label never misses |
| `Palette.TitlesDistinct` | src/SkinToneAnalyzer.js:13-44 | the three titles differ, so the displayed title identifies the label |
| `Palette.FirstEntries` | src/SkinToneAnalyzer.js:13-44 | warm[0] is ("Earth Brown", "#8B4513"), cool[0] is ("Navy Blue", "#000080"), neutral[0] is ("Classic Black", "#000000") |
| `Analyzer.StartsWith` | src/SkinToneAnalyzer.js:104 | `s.startsWith(prefix)`: the prefix is no longer than `s` and matches it character by character |
| `Analyzer.Classify` | src/SkinToneAnalyzer.js:46-87 | the label of an image is warm iff the warmth score of its centre sample's red and blue averages is above 0.1, and cool iff it is below -0.1 |
| `Analyzer.SkinToneAnalyzer.constructor` | src/SkinToneAnalyzer.js:6-9 | all four state slots start empty (`null`, `null`, `[]`, `null`) and the state invariant holds |
| `Analyzer.SkinToneAnalyzer.AnalyzeSkinTone` | src/SkinToneAnalyzer.js:46-88 | sets `skinTone` to the label of the centre sample's averages and `recommendations` to that label's palette colours; the image and the error are unchanged |
| `Analyzer.SkinToneAnalyzer.HandleImageUpload` | src/SkinToneAnalyzer.js:100-120 | with no file nothing changes; a media type not starting with "image/" sets the error to "Please upload an image file" and leaves image, label and palette; an image file starts decoding and changes nothing yet |
| `Analyzer.SkinToneAnalyzer.OnImageLoad` | src/SkinToneAnalyzer.js:112-116 | sets the image to the data URL, recomputes label and palette from the decoded pixels, and clears the error; the invariant (palette matches label) is kept |
| `Analyzer.UniformImageClassified` | src/SkinToneAnalyzer.js:46-98 | an image whose 50 x 50 centre window is one colour is classified exactly by that colour's red, green and blue |
| `Analyzer.LargeUniformWindow` | src/SkinToneAnalyzer.js:51-67 | in a well-formed one-colour image of at least 50 x 50 the whole centre window is that colour |
| `Analyzer.EmptyImageNeutral` | src/SkinToneAnalyzer.js:62-97 | an image of width or height 0 reads back all zeros and is classified neutral |
| `Analyzer.SmallImageSamplesBlack` | src/SkinToneAnalyzer.js:58-67 | in an image narrower or shorter than 50 the sample's first pixel is off the image and reads back as zeros |
| `Analyzer.SmallUniformImageDarkened` | src/SkinToneAnalyzer.js:58-82 | for a one-colour image narrower or shorter than 50, no channel average exceeds the colour's value, and every non-zero channel averages strictly below it |
| `Analyzer.SmallImageChangesLabel` | src/SkinToneAnalyzer.js:46-98 | a 10 x 10 image of (120, 80, 100), a warm colour, averages to red 4 and blue 4 and is classified neutral |
| `Analyzer.TomatoIsWarm` | src/SkinToneAnalyzer.js:46-98 | a 100 x 100 image of RGB (255, 99, 71) is warm, and its palette starts with ("Earth Brown", "#8B4513") |
| `Analyzer.TomatoSession` | src/SkinToneAnalyzer.js:100-120 | after a rejected "text/plain" upload, then an image upload that decodes to the tomato image, the state is: label warm, the warm palette, no error |

## Left out

- The JSX render tree and its CSS classes (src/SkinToneAnalyzer.js:122-191) are presentational. The generic alert component (src/components/ui/alert.jsx) is not part of this model.
- FileReader, the `Image` decoder and data-URL creation (src/SkinToneAnalyzer.js:109-119) are asynchronous browser I/O. Their results, the data URL and the decoded pixels, are parameters of `OnImageLoad`. A decode failure fires no handler in the source and is modelled as no event.
- The file itself is reduced to its media type. Its contents reach the model only as the decoded image.
- `drawImage` and `getImageData` (src/SkinToneAnalyzer.js:47-67) are foreign calls. Only their result is modelled, under the zero-fill assumption stated above. Colour management, premultiplied-alpha rounding and canvas size limits are not modelled.
- IEEE doubles are not modelled. The warmth score is an exact real or NaN, and the exactness argument above justifies this for byte inputs.
- React's `useState`/`useRef` machinery and its batched, asynchronous updates are not modelled. Each handler's updates are applied as direct field assignments, which gives the state React shows once the handler has run. The `lucide-react` icon is presentational.
- Decodes that overlap are not ordered. `OnImageLoad` may arrive for any earlier upload, as in the source, which does not cancel a stale decode.
- AverageBounds: the "between minimum and maximum" property is stated for every pair of bounds of the channel. The sample's minimum and maximum are one such pair, but the model has no separate minimum or maximum function.

/**
 * The `SkinToneAnalyzer` component's state and the events that change it.
 *
 * The four React state slots become fields. An upload event either does
 * nothing, records the invalid-file error, or starts decoding; the decoded
 * image then arrives as a separate `OnImageLoad` event carrying the data URL
 * and the decoded pixels, which stands for the FileReader and Image callbacks.
 */
module Analyzer {

  import opened Wrappers
  import opened Canvas
  import opened Sampling
  import opened Classifier
  import opened Palette

  const INVALID_FILE_MESSAGE := "Please upload an image file"

  /** The media-type prefix an uploaded file must carry. */
  const IMAGE_PREFIX := "image/"

  /** A selected file, reduced to the part the handler inspects before decoding. */
  datatype File = File(mediaType: string)

  /** `s.startsWith(prefix)`. */
  function StartsWith(s: string, prefix: string): (b: bool)
    ensures b <==> |prefix| <= |s| && forall i :: 0 <= i < |prefix| ==> s[i] == prefix[i]
  {
    |prefix| <= |s| && s[..|prefix|] == prefix
  }

  /**
   * The undertone `analyzeSkinTone` computes for a decoded image: the label
   * of the warmth score of the centre sample's red and blue averages.
   */
  function Classify(img: Image): (u: Undertone)
    ensures var data := CenterSample(img);
            var w := Warmth(ChannelAverage(data, RED), ChannelAverage(data, BLUE));
            && (u == Warm <==> Above(w, 0.1))
            && (u == Cool <==> Below(w, -0.1))
  {
    var data := CenterSample(img);
    DetermineUndertone(ChannelAverage(data, RED), ChannelAverage(data, GREEN), ChannelAverage(data, BLUE))
  }

  class SkinToneAnalyzer {

    /** The data URL of the image on display (`imageData`). */
    var imageData: Option<string>
    var skinTone: Option<Undertone>
    var recommendations: seq<Color>
    var error: Option<string>

    /**
     * Recommendations are always the palette of the current undertone (none
     * before the first analysis), and the only error ever shown is the
     * invalid-file message.
     */
    ghost predicate Valid()
      reads this
    {
      && (skinTone.None? ==> recommendations == [])
      && (skinTone.Some? ==> recommendations == ColorRecommendations(skinTone.value).colors)
      && (error.Some? ==> error.value == INVALID_FILE_MESSAGE)
    }

    /** The initial state of the four `useState` slots. */
    constructor ()
      ensures Valid()
      ensures imageData == None && skinTone == None && recommendations == [] && error == None
    {
      imageData := None;
      skinTone := None;
      recommendations := [];
      error := None;
    }

    /**
     * `analyzeSkinTone`: read back the centre window, average its channels,
     * classify, and store the label and its palette.
     */
    method AnalyzeSkinTone(img: Image)
      requires Valid()
      modifies this`skinTone, this`recommendations
      ensures Valid()
      ensures skinTone == Some(Classify(img))
      ensures recommendations == ColorRecommendations(Classify(img)).colors
      ensures imageData == old(imageData) && error == old(error)
    {
      var (x, y) := SampleOrigin(img.width, img.height);
      var data := GetImageData(img, x, y, SAMPLE_SIZE, SAMPLE_SIZE);
      var r, g, b := AverageChannels(data);
      var undertone := DetermineUndertone(r, g, b);
      skinTone := Some(undertone);
      recommendations := ColorRecommendations(undertone).colors;
    }

    /**
     * `handleImageUpload`: with no file nothing changes; a file whose media
     * type does not start with "image/" sets the error and leaves the rest;
     * an image file starts decoding (`decoding`) and changes nothing yet.
     */
    method HandleImageUpload(file: Option<File>) returns (decoding: bool)
      requires Valid()
      modifies this
      ensures Valid()
      ensures decoding <==> file.Some? && StartsWith(file.value.mediaType, IMAGE_PREFIX)
      ensures error == (if file.Some? && !decoding then Some(INVALID_FILE_MESSAGE) else old(error))
      ensures imageData == old(imageData)
      ensures skinTone == old(skinTone) && recommendations == old(recommendations)
    {
      if file.None? {
        return false;
      }
      if !StartsWith(file.value.mediaType, IMAGE_PREFIX) {
        error := Some(INVALID_FILE_MESSAGE);
        return false;
      }
      decoding := true;
    }

    /**
     * `img.onload`: show the decoded image, analyse it, and clear the error.
     */
    method OnImageLoad(dataUrl: string, img: Image)
      requires Valid()
      modifies this
      ensures Valid()
      ensures imageData == Some(dataUrl)
      ensures skinTone == Some(Classify(img))
      ensures recommendations == ColorRecommendations(Classify(img)).colors
      ensures error == None
    {
      imageData := Some(dataUrl);
      AnalyzeSkinTone(img);
      error := None;
    }
  }

  /**
   * An image whose 50 x 50 centre window is one colour is classified by that
   * colour's own red, green and blue values.
   */
  lemma UniformImageClassified(img: Image, p: Pixel)
    requires var (x0, y0) := SampleOrigin(img.width, img.height);
             forall x, y :: x0 <= x < x0 + SAMPLE_SIZE && y0 <= y < y0 + SAMPLE_SIZE ==> PixelAt(img, x, y) == p
    ensures Classify(img) == DetermineUndertone(p.r, p.g, p.b)
  {
    var data := CenterSample(img);
    var (x0, y0) := SampleOrigin(img.width, img.height);
    forall c: Channel
      ensures ChannelAverage(data, c) == p.At(c)
    {
      forall k | 0 <= k < |data| / 4
        ensures ChannelByte(data, k, c) == p.At(c)
      {
        ReadbackPixel(img, x0, y0, SAMPLE_SIZE, SAMPLE_SIZE, k, c);
      }
      UniformAverage(data, c, p.At(c));
    }
  }

  /** A well-formed image of at least 50 x 50 that is one colour throughout has a uniform centre window. */
  lemma LargeUniformWindow(img: Image, p: Pixel)
    requires img.Valid() && img.width >= SAMPLE_SIZE && img.height >= SAMPLE_SIZE
    requires forall y, x :: 0 <= y < img.height && 0 <= x < img.width ==> img.rows[y][x] == p
    ensures var (x0, y0) := SampleOrigin(img.width, img.height);
            forall x, y :: x0 <= x < x0 + SAMPLE_SIZE && y0 <= y < y0 + SAMPLE_SIZE ==> PixelAt(img, x, y) == p
  {
    WindowInsideIff(img.width, img.height);
  }

  /**
   * An image with no pixels reads back as transparent black throughout, its
   * averages are zero, and the NaN score makes it neutral.
   */
  lemma EmptyImageNeutral(img: Image)
    requires img.width == 0 || img.height == 0
    ensures Classify(img) == Neutral
  {
    var data := CenterSample(img);
    var (x0, y0) := SampleOrigin(img.width, img.height);
    forall c: Channel
      ensures ChannelAverage(data, c) == 0
    {
      forall k | 0 <= k < |data| / 4
        ensures ChannelByte(data, k, c) == 0
      {
        ReadbackOutside(img, x0, y0, SAMPLE_SIZE, SAMPLE_SIZE, k, c);
      }
      UniformAverage(data, c, 0);
    }
    BlackIsNeutral(0);
  }

  /**
   * In an image narrower or shorter than 50 pixels the window's first pixel
   * lies off the image, so the sample includes transparent black.
   */
  lemma SmallImageSamplesBlack(img: Image, c: Channel)
    requires img.width < SAMPLE_SIZE || img.height < SAMPLE_SIZE
    ensures ChannelByte(CenterSample(img), 0, c) == 0
  {
    var (x0, y0) := SampleOrigin(img.width, img.height);
    WindowInsideIff(img.width, img.height);
    ReadbackOutside(img, x0, y0, SAMPLE_SIZE, SAMPLE_SIZE, 0, c);
  }

  /**
   * A one-colour image narrower or shorter than 50 pixels is classified on
   * darkened averages: no channel average exceeds the colour's own value,
   * and a non-zero channel averages strictly below it.
   */
  lemma SmallUniformImageDarkened(img: Image, p: Pixel, c: Channel)
    requires img.width < SAMPLE_SIZE || img.height < SAMPLE_SIZE
    requires forall x, y :: 0 <= x < img.width && 0 <= y < img.height ==> PixelAt(img, x, y) == p
    ensures ChannelAverage(CenterSample(img), c) <= p.At(c)
    ensures p.At(c) > 0 ==> ChannelAverage(CenterSample(img), c) < p.At(c)
  {
    var data := CenterSample(img);
    var (x0, y0) := SampleOrigin(img.width, img.height);
    forall k | 0 <= k < |data| / 4
      ensures 0 <= ChannelByte(data, k, c) <= p.At(c)
    {
      ReadbackPixel(img, x0, y0, SAMPLE_SIZE, SAMPLE_SIZE, k, c);
    }
    AverageBounds(data, c, 0, p.At(c));
    if p.At(c) > 0 {
      SmallImageSamplesBlack(img, c);
      AverageBelowWithZero(data, c, p.At(c), 0);
    }
  }

  const MUTED := Pixel(120, 80, 100, 255)

  /** A 10 x 10 image filled with RGB (120, 80, 100): warm as a colour. */
  function MutedImage(): (img: Image)
    ensures img.Valid() && img.width == 10 && img.height == 10
  {
    Image(10, 10, seq(10, _ => seq(10, _ => MUTED)))
  }

  function Clamp(x: int, hi: nat): nat {
    if x < 0 then 0 else if x > hi then hi else x
  }

  /**
   * How many of the first `n` window pixels fall on the 10 x 10 image: the
   * window starts at (-20, -20), so the image covers window rows and
   * columns 20..29.
   */
  function MutedCount(n: nat): nat {
    var j, i := n / 50, n % 50;
    10 * Clamp(j - 20, 10) + (if 20 <= j < 30 then Clamp(i - 20, 10) else 0)
  }

  /** Whether window pixel `k` falls on the 10 x 10 image (window rows and columns 20..29). */
  predicate MutedInside(k: nat) {
    20 <= k % 50 < 30 && 20 <= k / 50 < 30
  }

  /** Window pixel `k` of the 10 x 10 image is the colour on the image and zero off it. */
  lemma MutedPixel(c: Channel, k: nat)
    requires k < 2500
    ensures 4 * k + c < |CenterSample(MutedImage())|
    ensures ChannelByte(CenterSample(MutedImage()), k, c) == if MutedInside(k) then MUTED.At(c) else 0
  {
    var img := MutedImage();
    assert SampleOrigin(10, 10) == (-20, -20);
    ReadbackPixel(img, -20, -20, SAMPLE_SIZE, SAMPLE_SIZE, k, c);
  }

  lemma MutedCountStep(n: nat)
    requires n > 0
    ensures MutedCount(n) == MutedCount(n - 1) + if MutedInside(n - 1) then 1 else 0
  {
    var k := n - 1;
    if k % 50 == 49 {
      assert n / 50 == k / 50 + 1 && n % 50 == 0;
    } else {
      assert n / 50 == k / 50 && n % 50 == k % 50 + 1;
    }
  }

  lemma ScaledStep(v: int, m: int, m': int, inside: bool)
    requires m' == m + if inside then 1 else 0
    ensures v * m' == v * m + if inside then v else 0
  {
  }

  /** A buffer that holds `v` exactly on the image's pixels sums to `v` times their count. */
  lemma {:induction false} MutedPrefixSum(data: seq<byte>, c: Channel, v: byte, n: nat)
    requires 4 * n <= |data|
    requires forall k :: 0 <= k < n ==> ChannelByte(data, k, c) == if MutedInside(k) then v else 0
    ensures ChannelSum(data, c, n) == v * MutedCount(n)
  {
    if n > 0 {
      MutedPrefixSum(data, c, v, n - 1);
      MutedCountStep(n);
      ScaledStep(v, MutedCount(n - 1), MutedCount(n), MutedInside(n - 1));
    }
  }

  /** Every channel of the 10 x 10 image's sample sums to 100 times the colour's value. */
  lemma MutedSums(c: Channel)
    ensures ChannelSum(CenterSample(MutedImage()), c, 2500) == MUTED.At(c) * 100
  {
    var data := CenterSample(MutedImage());
    forall k | 0 <= k < 2500
      ensures ChannelByte(data, k, c) == if MutedInside(k) then MUTED.At(c) else 0
    {
      MutedPixel(c, k);
    }
    MutedPrefixSum(data, c, MUTED.At(c), 2500);
    assert MutedCount(2500) == 100;
  }

  /**
   * The darkening can change the label: the 10 x 10 image of (120, 80, 100)
   * reads back 100 coloured pixels and 2400 zero pixels, so its averages are
   * (4, 3, 4) and it is neutral, although the colour itself is warm.
   */
  lemma SmallImageChangesLabel()
    ensures DetermineUndertone(MUTED.r, MUTED.g, MUTED.b) == Warm
    ensures ChannelAverage(CenterSample(MutedImage()), RED) == 4
    ensures ChannelAverage(CenterSample(MutedImage()), BLUE) == 4
    ensures Classify(MutedImage()) == Neutral
  {
    var data := CenterSample(MutedImage());
    MutedSums(RED);
    MutedSums(BLUE);
    AverageOfSample(data, RED, 12000);
    AverageOfSample(data, BLUE, 10000);
    var r, g, b := ChannelAverage(data, RED), ChannelAverage(data, GREEN), ChannelAverage(data, BLUE);
    assert r == 4 && b == 4;
    assert DetermineUndertone(r, g, b) == Neutral;
  }

  /** The average of a 2500-pixel sample is its channel sum floor-divided by 2500. */
  lemma AverageOfSample(data: seq<byte>, c: Channel, s: int)
    requires |data| == 10000 && ChannelSum(data, c, 2500) == s
    ensures IsPixelBuffer(data) && ChannelAverage(data, c) == s / 2500
  {
  }

  const TOMATO := Pixel(255, 99, 71, 255)

  /** A 100 x 100 image filled with opaque tomato red, RGB (255, 99, 71). */
  function TomatoImage(): (img: Image)
    ensures img.Valid() && img.width == 100 && img.height == 100
  {
    Image(100, 100, seq(100, _ => seq(100, _ => TOMATO)))
  }

  /** The tomato image is warm and is recommended the warm palette. */
  lemma TomatoIsWarm()
    ensures Classify(TomatoImage()) == Warm
    ensures ColorRecommendations(Classify(TomatoImage())).colors[0] == Color("Earth Brown", "#8B4513")
  {
    LargeUniformWindow(TomatoImage(), TOMATO);
    UniformImageClassified(TomatoImage(), TOMATO);
  }

  /**
   * A session: a text file is rejected with the invalid-file message, then an
   * image upload is decoded into the tomato image, which leaves the warm
   * label, the warm palette and no error.
   */
  method TomatoSession() returns (tone: Option<Undertone>, colors: seq<Color>, err: Option<string>)
    ensures tone == Some(Warm)
    ensures colors == ColorRecommendations(Warm).colors
    ensures err == None
  {
    var analyzer := new SkinToneAnalyzer();
    var decoding := analyzer.HandleImageUpload(Some(File("text/plain")));
    assert "text/plain"[0] != IMAGE_PREFIX[0];
    assert !decoding && analyzer.error == Some(INVALID_FILE_MESSAGE);
    assert analyzer.skinTone == None;
    decoding := analyzer.HandleImageUpload(Some(File("image/png")));
    assert "image/png"[..6] == IMAGE_PREFIX;
    assert decoding;
    TomatoIsWarm();
    analyzer.OnImageLoad("data:image/png;base64,", TomatoImage());
    tone, colors, err := analyzer.skinTone, analyzer.recommendations, analyzer.error;
  }
}

/** The serialised PolarQuant configuration. */
module PolarConfig {
  import opened Basics
  import opened BitPacking
  import opened PolarQuant

  datatype ConfigError = TooShort | SignsTooShort

  const U32: nat := 0x1_0000_0000

  /** `(n as u32).to_le_bytes()`: the cast drops everything above 32 bits. */
  function Le32(n: nat): (r: seq<bv8>)
    ensures |r| == 4
  {
    [(n % 256) as bv8, (n / 256 % 256) as bv8, (n / 65536 % 256) as bv8, (n / 16777216 % 256) as bv8]
  }

  function FromLe32(b: seq<bv8>): nat
    requires |b| == 4
  {
    b[0] as int + 256 * (b[1] as int) + 65536 * (b[2] as int) + 16777216 * (b[3] as int)
  }

  lemma ByteBack(n: nat)
    requires n < 256
    ensures (n as bv8) as int == n
  {
    var b := ByteOf(n);
    assert (b as int) as bv8 == b;
  }

  lemma {:induction false} Le32Truncates(n: nat)
    ensures FromLe32(Le32(n)) == n % U32
  {
    ByteBack(n % 256);
    ByteBack(n / 256 % 256);
    ByteBack(n / 65536 % 256);
    ByteBack(n / 16777216 % 256);
    DigitsOf(n);
  }

  lemma DigitsOf(n: nat)
    ensures n % 256 + 256 * (n / 256 % 256) + 65536 * (n / 65536 % 256) + 16777216 * (n / 16777216 % 256) == n % U32
  {
    assert n / 65536 == n / 256 / 256 && n / 16777216 == n / 65536 / 256;
  }

  /** `[bits][dimensions: u32 LE][padded: u32 LE][sign bits]` */
  method ToBytes(config: Config) returns (buf: seq<bv8>)
    requires config.bits < 256 && |config.signs| == config.paddedDim
    ensures Serialises(buf, config)
  {
    hide PacksBits, Le32;
    var signData := PackSigns(config.signs);
    buf := Header(config) + signData;
    assert buf[9..] == signData;
  }

  function Header(config: Config): (r: seq<bv8>)
    requires config.bits < 256
    ensures |r| == 9
  {
    [config.bits as bv8] + Le32(config.dimensions) + Le32(config.paddedDim)
  }

  ghost predicate Serialises(buf: seq<bv8>, config: Config)
    requires config.bits < 256
  {
    |buf| >= 9 && buf[..9] == Header(config) && PacksBits(buf[9..], config.signs)
  }

  function FromBytes(bytes: seq<bv8>): Result<Config, ConfigError> {
    if |bytes| < 9 then Err(TooShort)
    else
      var paddedDim := FromLe32(bytes[5..9]);
      var signBytes := DivCeil8(paddedDim);
      if |bytes| < 9 + signBytes then Err(SignsTooShort)
      else Ok(Config(bytes[0] as int, FromLe32(bytes[1..5]), UnpackSigns(bytes[9..9 + signBytes], paddedDim), paddedDim))
  }

  /** Reading fails exactly when the header or its sign bytes are not all there. */
  lemma ReadsIff(bytes: seq<bv8>)
    ensures FromBytes(bytes).Ok? <==> |bytes| >= 9 && 8 * (|bytes| - 9) >= FromLe32(bytes[5..9])
    ensures |bytes| < 9 ==> FromBytes(bytes) == Err(TooShort)
    ensures |bytes| >= 9 && !FromBytes(bytes).Ok? ==> FromBytes(bytes) == Err(SignsTooShort)
  {
    if |bytes| >= 9 { BytesNeeded(FromLe32(bytes[5..9])); }
  }

  /** The configuration survives serialisation exactly when both lengths fit in 32 bits. */
  lemma {:induction false} ConfigRoundTrip(config: Config, buf: seq<bv8>)
    requires config.bits < 256 && |config.signs| == config.paddedDim && Serialises(buf, config)
    ensures FromBytes(buf) == Ok(config) <==> config.dimensions < U32 && config.paddedDim < U32
  {
    hide Le32, FromLe32, UnpackSigns, PacksBits;
    var header, signData := Header(config), buf[9..];
    assert buf == header + signData;
    assert header[1..5] == Le32(config.dimensions) && header[5..9] == Le32(config.paddedDim);
    assert buf[0] == header[0] && buf[1..5] == header[1..5] && buf[5..9] == header[5..9];
    Le32Truncates(config.dimensions);
    Le32Truncates(config.paddedDim);
    ByteBack(config.bits);
    SignBytes(signData, config.signs);
    if config.paddedDim < U32 {
      assert buf[9..9 + |signData|] == signData;
      SignRoundTrip(signData, config.signs);
    }
  }

  lemma SignBytes(data: seq<bv8>, signs: seq<bool>)
    requires PacksBits(data, signs)
    ensures |data| == DivCeil8(|signs|)
  {}
}

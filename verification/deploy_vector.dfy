/**
  The collection's ticker as the deploy script passes it and as the front end
  shows it: the hex string is the contract's default ticker bytes, and the
  decoder turns it into "NFTSZN2024".
*/
module DeployVector {
  import opened Wrappers
  import opened TraderTypes
  import opened TickerUtil
  import opened TickerProperties

  /** The ticker argument of the deploy script. */
  const DeployTickerHex: string := "0x4e4654535a4e323032340000"

  /** The deploy script's ticker is the contract's default ticker, hex-encoded. */
  lemma DeployTickerIsDefault()
    ensures DeployTickerHex == "0x" + HexEncode(DefaultTicker)
  {
  }

  /** The default ticker stops at its eleventh byte, the first zero. */
  lemma DefaultTickerBeforeZero()
    ensures BeforeZero(DefaultTicker) == DefaultTicker[..10]
  {
    BeforeZeroAt(DefaultTicker, 10);
  }

  /** Its first ten bytes read as characters spell the collection's name. */
  lemma DefaultTickerText()
    ensures Latin1(DefaultTicker[..10]) == "NFTSZN2024"
  {
    var t := Latin1(DefaultTicker[..10]);
    assert t[0] == 'N' && t[1] == 'F' && t[2] == 'T' && t[3] == 'S' && t[4] == 'Z';
    assert t[5] == 'N' && t[6] == '2' && t[7] == '0' && t[8] == '2' && t[9] == '4';
  }

  /** The front end shows the deployed collection as "NFTSZN2024". */
  lemma DeployTickerDecodes()
    ensures Decode(Some(DeployTickerHex)) == Some("NFTSZN2024")
  {
    DeployTickerIsDefault();
    DecodeEncoded(DefaultTicker);
    DefaultTickerBeforeZero();
    DefaultTickerText();
  }
}

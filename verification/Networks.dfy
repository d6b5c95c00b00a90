/** The networks a relay can be on. */
module Networks {

  datatype Network = Clearnet | Tor | I2p | Loki | Local | Unknown
}

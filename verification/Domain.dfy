/** The enumerations shared by every part of the broker. */
module Domain {
  datatype Side = Buy | Sell

  datatype OrderType = Market | Limit | StopMarket | StopLimit

  datatype OrderStatus = Pending | PartiallyFilled | Filled | Cancelled | Rejected | Expired

  datatype TimeInForce = Day | Gtt | Gtc | Amo

  datatype ProductType = Delivery | Intraday

  datatype Exchange = NSE | BSE

  function Opposite(side: Side): Side {
    if side == Buy then Sell else Buy
  }
}

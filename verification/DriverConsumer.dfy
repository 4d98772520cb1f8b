/** driver-service's Kafka consumer as a running object. */
module DriverConsumers {
  import opened Drivers
  import opened DriverRetries
  import DriverServices

  /** The service method a topic is bound to. */
  datatype Handler = PhotoHandler | AssignedHandler | FinishedHandler | RideStatusHandler

  class KafkaConsumer {
    var handlers: map<Topic, Handler>
    const service: DriverServices.DriverService

    constructor (service: DriverServices.DriverService)
      ensures this.service == service && handlers == map[]
    {
      this.service := service;
      handlers := map[];
    }

    method RegisterHandler(topic: Topic, handler: Handler)
      modifies this
      ensures handlers == old(handlers)[topic := handler]
    {
      handlers := handlers[topic := handler];
    }

    /** The registrations made before the consumer starts. */
    method OnModuleInit()
      modifies this
      ensures AllRegistered()
    {
      RegisterHandler(UserPhotoUpdated, PhotoHandler);
      RegisterHandler(DriverAssignedTopic, AssignedHandler);
      RegisterHandler(RideCompletedTopic, FinishedHandler);
      RegisterHandler(RideStatusUpdated, RideStatusHandler);
    }

    predicate AllRegistered()
      reads this
    {
      && UserPhotoUpdated in handlers && handlers[UserPhotoUpdated] == PhotoHandler
      && DriverAssignedTopic in handlers && handlers[DriverAssignedTopic] == AssignedHandler
      && RideCompletedTopic in handlers && handlers[RideCompletedTopic] == FinishedHandler
      && RideStatusUpdated in handlers && handlers[RideStatusUpdated] == RideStatusHandler
    }

    /** `eachMessage`: true when the offset is committed, false when the error is rethrown. */
    method EachMessage(topic: Topic, payload: Payload, budget: nat) returns (committed: bool)
      requires AllRegistered() && Fits(topic, payload) && UniqueUsers(service.rows)
      modifies service, service.redis
      ensures var plan := MessagePlan(old(service.State()), topic, payload);
              && service.State() == Attempt(old(service.State()), plan, budget)
              && committed == (ReplyOf(plan, budget) != ServerError)
      ensures handlers == old(handlers)
    {
      ghost var before := service.State();
      PlansAreShort(before, topic, payload);
      var reply := Ignored;
      match payload {
        case Malformed => return true;
        case Null => reply := ServerError;
        case PhotoPayload(e) =>
          assert handlers[topic] == PhotoHandler;
          reply := service.HandleUserPhotoUpdated(e, budget);
        case AssignedPayload(e) =>
          assert handlers[topic] == AssignedHandler;
          reply := service.HandleDriverAssigned(e, budget);
        case RidePayload(e) =>
          if handlers[topic] == FinishedHandler {
            reply := service.HandleRideFinished(e, budget);
          } else {
            reply := service.HandleRideStatusUpdated(e, budget);
          }
      }
      committed := reply != ServerError;
    }
  }
}
